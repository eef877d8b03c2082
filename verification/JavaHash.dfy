/** The Java-style hash codes of `utils.rs` and `affinity.rs`: wrapping base-31 folds and the 64-bit fold. */
module JavaHash {
  import opened Wire
  import opened Bits

  function Pow31(n: nat): int {
    if n == 0 then 1 else 31 * Pow31(n - 1)
  }

  /** xs[0] * 31^(n-1) + ... + xs[n-1], in unbounded arithmetic. */
  function PolySum(xs: seq<int>): int {
    if xs == [] then 0 else xs[0] * Pow31(|xs| - 1) + PolySum(xs[1..])
  }

  lemma {:induction false} PolySumSnoc(xs: seq<int>, x: int)
    ensures PolySum(xs + [x]) == 31 * PolySum(xs) + x
  {
    if xs == [] {
      assert xs + [x] == [x];
      assert [x][1..] == [];
      assert PolySum([x]) == x * Pow31(0) + PolySum([]);
    } else {
      var p := Pow31(|xs| - 1);
      PolySumSnoc(xs[1..], x);
      assert (xs + [x])[1..] == xs[1..] + [x];
      assert xs[0] * (31 * p) == 31 * (xs[0] * p);
    }
  }

  /** The same polynomial with leading term seed * 31^n, in Horner form. */
  function Horner(seed: int, xs: seq<int>): int {
    if xs == [] then seed else 31 * Horner(seed, xs[..|xs| - 1]) + xs[|xs| - 1]
  }

  lemma {:induction false} HornerIsPolynomial(seed: int, xs: seq<int>)
    ensures Horner(seed, xs) == seed * Pow31(|xs|) + PolySum(xs)
  {
    if xs != [] {
      var front, last := xs[..|xs| - 1], xs[|xs| - 1];
      HornerIsPolynomial(seed, front);
      assert front + [last] == xs;
      PolySumSnoc(front, last);
      assert seed * (31 * Pow31(|front|)) == 31 * (seed * Pow31(|front|));
    }
  }

  /** The hash of a key: seed * 31^n plus the polynomial, modulo 2^32. */
  function PolyHash(seed: int, xs: seq<int>): i32 {
    Wrap32(Horner(seed, xs))
  }

  /** One turn of a hashing loop: h * 31 + x, each operation wrapping. */
  function HashStep(h: i32, x: int): i32 {
    Wrap32(Wrap32(h * 31) + x)
  }

  /** A turn of the loop extends the polynomial by one term. */
  lemma PolyHashSnoc(seed: int, xs: seq<int>, x: int)
    ensures HashStep(PolyHash(seed, xs), x) == PolyHash(seed, xs + [x])
  {
    assert (xs + [x])[..|xs|] == xs;
    var y, h := Horner(seed, xs), PolyHash(seed, xs);
    var j := (y - h) / 0x1_0000_0000;
    assert y == h + j * 0x1_0000_0000;
    var m := Wrap32(h * 31);
    var k := (h * 31 - m) / 0x1_0000_0000;
    assert h * 31 == m + k * 0x1_0000_0000;
    WrapUnique(31 * y + x, m + x, 31 * j + k);
  }

  lemma PolyHashEmpty(seed: i32)
    ensures PolyHash(seed, []) == seed
  {
  }

  /** `string_to_java_hashcode`, with the wrapping arithmetic of a release build. */
  method StringToJavaHashcode(chars: seq<int>) returns (hash: i32)
    ensures hash == PolyHash(0, chars)
  {
    hash := 0;
    PolyHashEmpty(0);
    for i := 0 to |chars|
      invariant hash == PolyHash(0, chars[..i])
    {
      PolyHashSnoc(0, chars[..i], chars[i]);
      assert chars[..i + 1] == chars[..i] + [chars[i]];
      hash := Wrap32(31 * hash);
      hash := Wrap32(hash + chars[i]);
    }
    assert chars[..|chars|] == chars;
  }

  function AsI8(b: byte): int {
    if b < 128 then b else b - 256
  }

  function AsI8s(bytes: Bytes): seq<int> {
    seq(|bytes|, i requires 0 <= i < |bytes| => AsI8(bytes[i]))
  }

  /** `bytes_to_java_hashcode`: Java's `Arrays.hashCode(byte[])`. */
  method BytesToJavaHashcode(data: Bytes) returns (h: i32)
    ensures h == PolyHash(1, AsI8s(data))
  {
    h := 1;
    PolyHashEmpty(1);
    for i := 0 to |data|
      invariant h == PolyHash(1, AsI8s(data)[..i])
    {
      PolyHashSnoc(1, AsI8s(data)[..i], AsI8(data[i]));
      assert AsI8s(data)[..i + 1] == AsI8s(data)[..i] + [AsI8(data[i])];
      h := Wrap32(h * 31);
      h := Wrap32(h + AsI8(data[i]));
    }
    assert AsI8s(data)[..|data|] == AsI8s(data);
  }

  /** `long_hash`: the low 32 bits of v ^ (v >>> 32). */
  function LongHash(v: i64): i32 {
    BaseValues();
    var u := Unsigned(8, v);
    Wrap32(Xor(u, u / 0x1_0000_0000))
  }

  lemma XorLow32(x: nat, y: nat)
    ensures Xor(x, y) % 0x1_0000_0000 == Xor(x % 0x1_0000_0000, y % 0x1_0000_0000)
  {
    Pow2Values();
    XorLow(x, y, 32);
  }

  /** Truncating x ^ (x >>> 32) to 32 bits folds the two halves of x onto each other. */
  lemma XorTruncates(u: nat)
    requires u < 0x1_0000_0000_0000_0000
    ensures Xor(u, u / 0x1_0000_0000) % 0x1_0000_0000 == Xor(u % 0x1_0000_0000, u / 0x1_0000_0000)
  {
    var high := u / 0x1_0000_0000;
    assert high % 0x1_0000_0000 == high;
    XorLow32(u, high);
  }

  /** It folds the two 32-bit halves onto each other. */
  lemma LongHashFoldsHalves(v: i64)
    ensures Fits(8, v)
    ensures var u := Unsigned(8, v);
      LongHash(v) == Wrap32(Xor(u % 0x1_0000_0000, u / 0x1_0000_0000))
  {
    BaseValues();
    var u := Unsigned(8, v);
    XorTruncates(u);
    var x := Xor(u, u / 0x1_0000_0000);
    WrapUnique(x, x % 0x1_0000_0000, x / 0x1_0000_0000);
  }
}
