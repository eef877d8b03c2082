/** Bytes on the wire: little-endian two's complement integers, and the reader and writer that the
    protocol code advances. */
module Wire {
  type byte = b: int | 0 <= b < 256
  type Bytes = seq<byte>

  type u16 = n: int | 0 <= n < 0x1_0000
  type i32 = n: int | -0x8000_0000 <= n < 0x8000_0000
  type i64 = n: int | -0x8000_0000_0000_0000 <= n < 0x8000_0000_0000_0000
  type u64 = n: int | 0 <= n < 0x1_0000_0000_0000_0000

  /** Why decoding stops.  `Panic` stands for the places where the client panics instead of returning
      an error: a negative length passed to an allocation, or `unwrap` of an absent field. */
  datatype Fault = EndOfInput | BadTypeCode | BadUtf8 | BadFormat | Panic

  /** A parse: the value and the bytes not consumed. */
  datatype Parse<+T> = Got(value: T, rest: Bytes) | Bad(fault: Fault) {
    predicate IsFailure() {
      Bad?
    }

    function PropagateFailure<U>(): Parse<U>
      requires Bad?
    {
      Bad(fault)
    }

    function Extract(): (T, Bytes)
      requires Got?
    {
      (value, rest)
    }
  }

  datatype Result<+T> = Ok(value: T) | Err(fault: Fault)

  // ------------------------------------------------------------------ integers

  function Base(width: nat): (b: int)
    ensures b >= 1
  {
    if width == 0 then 1 else 256 * Base(width - 1)
  }

  lemma BaseValues()
    ensures Base(1) == 0x100 && Base(2) == 0x1_0000 && Base(4) == 0x1_0000_0000
    ensures Base(8) == 0x1_0000_0000_0000_0000
  {
    assert Base(3) == 256 * Base(2);
    assert Base(5) == 256 * Base(4);
    assert Base(6) == 256 * Base(5);
    assert Base(7) == 256 * Base(6);
  }

  function LE(width: nat, n: nat): (s: Bytes)
    ensures |s| == width
  {
    if width == 0 then [] else [n % 256] + LE(width - 1, n / 256)
  }

  function FromLE(s: Bytes): (n: nat)
    ensures n < Base(|s|)
  {
    if s == [] then 0 else s[0] + 256 * FromLE(s[1..])
  }

  lemma {:induction false} FromLEOfLE(width: nat, n: nat)
    requires n < Base(width)
    ensures FromLE(LE(width, n)) == n
  {
    if width > 0 {
      FromLEOfLE(width - 1, n / 256);
      assert LE(width, n)[1..] == LE(width - 1, n / 256);
    }
  }

  lemma LowByte(b: byte, high: nat)
    ensures (b + 256 * high) % 256 == b && (b + 256 * high) / 256 == high
  {
  }

  lemma {:induction false} LEOfFromLE(s: Bytes)
    ensures LE(|s|, FromLE(s)) == s
  {
    if s != [] {
      LEOfFromLE(s[1..]);
      LowByte(s[0], FromLE(s[1..]));
      assert s == [s[0]] + s[1..];
    }
  }

  /** v is representable in `width` bytes of two's complement. */
  predicate Fits(width: nat, v: int) {
    width > 0 && -Base(width) <= 2 * v < Base(width)
  }

  /** Two's complement: the unsigned representative of v. */
  function Unsigned(width: nat, v: int): (n: int)
    requires Fits(width, v)
    ensures 0 <= n < Base(width)
  {
    if v < 0 then v + Base(width) else v
  }

  function Signed(width: nat, n: nat): (v: int)
    requires width > 0 && n < Base(width)
    ensures Fits(width, v) && Unsigned(width, v) == n
  {
    if 2 * n < Base(width) then n else n - Base(width)
  }

  lemma SignedOfUnsigned(width: nat, v: int)
    requires Fits(width, v)
    ensures Signed(width, Unsigned(width, v)) == v
  {
  }

  function PutU(width: nat, n: nat): Bytes {
    LE(width, n)
  }

  function PutI(width: nat, v: int): Bytes
    requires Fits(width, v)
  {
    LE(width, Unsigned(width, v))
  }

  function GetU(width: nat, s: Bytes): (p: Parse<nat>)
    ensures p.Got? ==> p.value < Base(width) && |p.rest| == |s| - width
  {
    if |s| < width then Bad(EndOfInput) else Got(FromLE(s[..width]), s[width..])
  }

  function GetI(width: nat, s: Bytes): (p: Parse<int>)
    requires width > 0
    ensures p.Got? ==> Fits(width, p.value) && |p.rest| == |s| - width
  {
    if |s| < width then Bad(EndOfInput) else Got(Signed(width, FromLE(s[..width])), s[width..])
  }

  lemma GetPutU(width: nat, n: nat, rest: Bytes)
    requires n < Base(width)
    ensures GetU(width, PutU(width, n) + rest) == Got(n, rest)
  {
    FromLEOfLE(width, n);
    assert (PutU(width, n) + rest)[..width] == PutU(width, n);
  }

  lemma GetPutI(width: nat, v: int, rest: Bytes)
    requires Fits(width, v)
    ensures GetI(width, PutI(width, v) + rest) == Got(v, rest)
  {
    SignedOfUnsigned(width, v);
    FromLEOfLE(width, Unsigned(width, v));
    assert (PutI(width, v) + rest)[..width] == PutI(width, v);
  }

  /** No other bytes decode to the same integer. */
  lemma PutGetI(width: nat, s: Bytes)
    requires width > 0 && GetI(width, s).Got?
    ensures s == PutI(width, GetI(width, s).value) + GetI(width, s).rest
  {
    LEOfFromLE(s[..width]);
    assert s == s[..width] + s[width..];
  }

  function PutI32(v: i32): (s: Bytes)
    ensures |s| == 4
  {
    BaseValues(); PutI(4, v)
  }

  function GetI32(s: Bytes): (p: Parse<i32>)
    ensures p.Got? ==> |p.rest| == |s| - 4
  {
    BaseValues();
    var (v, rest) :- GetI(4, s);
    Got(v, rest)
  }

  function PutI64(v: i64): (s: Bytes)
    ensures |s| == 8
  {
    BaseValues(); PutI(8, v)
  }

  function GetI64(s: Bytes): (p: Parse<i64>)
    ensures p.Got? ==> |p.rest| == |s| - 8
  {
    BaseValues();
    var (v, rest) :- GetI(8, s);
    Got(v, rest)
  }

  lemma GetPutI32(v: i32, rest: Bytes)
    ensures GetI32(PutI32(v) + rest) == Got(v, rest)
  {
    BaseValues();
    GetPutI(4, v, rest);
  }

  lemma GetPutI64(v: i64, rest: Bytes)
    ensures GetI64(PutI64(v) + rest) == Got(v, rest)
  {
    BaseValues();
    GetPutI(8, v, rest);
  }

  function GetByte(s: Bytes): (p: Parse<byte>)
    ensures p.Got? ==> |p.rest| == |s| - 1
  {
    if s == [] then Bad(EndOfInput) else Got(s[0], s[1..])
  }

  function GetBool(s: Bytes): (p: Parse<bool>)
    ensures p.Got? ==> |p.rest| == |s| - 1
  {
    if s == [] then Bad(EndOfInput) else Got(s[0] != 0, s[1..])
  }

  function PutBool(b: bool): (s: Bytes)
    ensures |s| == 1
  {
    [if b then 1 else 0]
  }

  // ------------------------------------------------------------------ wrap-around

  /** The i32 congruent to x modulo 2^32. */
  function Wrap32(x: int): (v: i32)
    ensures (x - v) % 0x1_0000_0000 == 0
  {
    (x + 0x8000_0000) % 0x1_0000_0000 - 0x8000_0000
  }

  lemma WrapFits(x: int)
    requires -0x8000_0000 <= x < 0x8000_0000
    ensures Wrap32(x) == x
  {
  }

  lemma WrapUnique(x: int, y: int, k: int)
    requires x == y + k * 0x1_0000_0000
    ensures Wrap32(x) == Wrap32(y)
  {
  }

  // ------------------------------------------------------------------ slices

  lemma Assoc(a: Bytes, b: Bytes, c: Bytes)
    ensures a + b + c == a + (b + c)
  {
  }

  /** The bytes of w at position `at` are `part`. */
  predicate SliceIs(w: Bytes, at: int, part: Bytes) {
    0 <= at && at + |part| <= |w| && w[at..at + |part|] == part
  }

  lemma SliceLeft(a: Bytes, b: Bytes, at: int, part: Bytes)
    requires SliceIs(a, at, part)
    ensures SliceIs(a + b, at, part)
  {
  }

  lemma SliceRight(a: Bytes, b: Bytes, at: int, part: Bytes)
    requires SliceIs(b, at, part)
    ensures SliceIs(a + b, |a| + at, part)
  {
  }

  lemma SliceSelf(w: Bytes)
    ensures SliceIs(w, 0, w)
  {
  }

  function Concat(parts: seq<Bytes>): Bytes {
    if parts == [] then [] else parts[0] + Concat(parts[1..])
  }

  lemma ConcatSnoc(parts: seq<Bytes>, part: Bytes)
    ensures Concat(parts + [part]) == Concat(parts) + part
  {
    if parts == [] {
      assert parts + [part] == [part] && [part][1..] == [];
      assert Concat([part]) == part + [] == [] + part;
    } else {
      ConcatSnoc(parts[1..], part);
      assert (parts + [part])[1..] == parts[1..] + [part];
      Assoc(parts[0], Concat(parts[1..]), part);
    }
  }

  /** Part i of a concatenation stands behind the parts before it. */
  lemma {:induction false} ConcatSlice(parts: seq<Bytes>, i: nat)
    requires i < |parts|
    ensures SliceIs(Concat(parts), |Concat(parts[..i])|, parts[i])
  {
    if i == 0 {
      SliceSelf(parts[0]);
      SliceLeft(parts[0], Concat(parts[1..]), 0, parts[0]);
    } else {
      ConcatSlice(parts[1..], i - 1);
      assert parts[..i][1..] == parts[1..][..i - 1];
      SliceRight(parts[0], Concat(parts[1..]), |Concat(parts[1..][..i - 1])|, parts[i]);
    }
  }

  // ------------------------------------------------------------------ parses of several items

  /** The items in front of a parse of the remaining ones. */
  function Prepend<T>(xs: seq<T>, p: Parse<seq<T>>): Parse<seq<T>> {
    match p
    case Bad(f) => Bad(f)
    case Got(ys, rest) => Got(xs + ys, rest)
  }

  lemma PrependNothing<T>(p: Parse<seq<T>>)
    ensures Prepend([], p) == p
  {
    if p.Got? { assert [] + p.value == p.value; }
  }

  lemma PrependToNothing<T>(xs: seq<T>, rest: Bytes)
    ensures Prepend(xs, Got([], rest)) == Got(xs, rest)
  {
    assert xs + [] == xs;
  }

  lemma PrependTwice<T>(xs: seq<T>, ys: seq<T>, p: Parse<seq<T>>)
    ensures Prepend(xs, Prepend(ys, p)) == Prepend(xs + ys, p)
  {
    if p.Got? { assert xs + (ys + p.value) == xs + ys + p.value; }
  }

  // ------------------------------------------------------------------ reader

  /** What a reading call leaves behind, given the parse it stands for.  After a failure nothing is
      promised about the position. */
  predicate Follows<T(==)>(p: Parse<T>, r: Result<T>, rest: Bytes) {
    match p
    case Got(v, after) => r == Ok(v) && rest == after
    case Bad(f) => r == Err(f)
  }

  class Reader {
    var rest: Bytes

    constructor (input: Bytes)
      ensures rest == input
    {
      rest := input;
    }

    method ReadByte() returns (r: Result<byte>)
      modifies this
      ensures Follows(GetByte(old(rest)), r, rest)
    {
      if |rest| == 0 { return Err(EndOfInput); }
      r := Ok(rest[0]);
      rest := rest[1..];
    }

    method ReadBool() returns (r: Result<bool>)
      modifies this
      ensures Follows(GetBool(old(rest)), r, rest)
    {
      if |rest| == 0 { return Err(EndOfInput); }
      r := Ok(rest[0] != 0);
      rest := rest[1..];
    }

    method ReadI32() returns (r: Result<i32>)
      modifies this
      ensures Follows(GetI32(old(rest)), r, rest)
    {
      BaseValues();
      if |rest| < 4 { return Err(EndOfInput); }
      r := Ok(Signed(4, FromLE(rest[..4])));
      rest := rest[4..];
    }

    method ReadI64() returns (r: Result<i64>)
      modifies this
      ensures Follows(GetI64(old(rest)), r, rest)
    {
      BaseValues();
      if |rest| < 8 { return Err(EndOfInput); }
      r := Ok(Signed(8, FromLE(rest[..8])));
      rest := rest[8..];
    }

    method ReadInt(width: nat) returns (r: Result<int>)
      requires width > 0
      modifies this
      ensures Follows(GetI(width, old(rest)), r, rest)
    {
      if |rest| < width { return Err(EndOfInput); }
      r := Ok(Signed(width, FromLE(rest[..width])));
      rest := rest[width..];
    }

    method ReadNat(width: nat) returns (r: Result<nat>)
      modifies this
      ensures Follows(GetU(width, old(rest)), r, rest)
    {
      if |rest| < width { return Err(EndOfInput); }
      r := Ok(FromLE(rest[..width]));
      rest := rest[width..];
    }
  }
}
