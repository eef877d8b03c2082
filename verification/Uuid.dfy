/** Node ids: the 128-bit UUID on the wire, its text form, and the text parsed back. */
module Uuid {
  import opened Wire
  import opened Bits

  const DASH: byte := 45

  function Pow16(n: nat): (p: nat)
    ensures p >= 1
  {
    if n == 0 then 1 else 16 * Pow16(n - 1)
  }

  function HexDigit(d: nat): byte
    requires d < 16
  {
    if d < 10 then 48 + d else 87 + d
  }

  /** v in n lower-case hexadecimal digits, most significant first. */
  function Hex(v: nat, n: nat): (s: Bytes)
    ensures |s| == n
  {
    if n == 0 then [] else Hex(v / 16, n - 1) + [HexDigit(v % 16)]
  }

  lemma DivTwice(v: nat, p: nat)
    requires p > 0
    ensures v / (16 * p) == v / p / 16
  {
    var q, r := v / p, v % p;
    var d, e := q / 16, q % 16;
    MulMono(p, e, 15);
    calc {
      v;
      p * q + r;
      p * (16 * d + e) + r;
      (16 * p) * d + (p * e + r);
    }
    DivModUnique(v, 16 * p, d, p * e + r);
  }

  /** v without its last n digits, and those digits: `v >> 4n` and `v & (16^n - 1)`. */
  function High(v: nat, n: nat): (h: nat) {
    DivNat(v, Pow16(n)); v / Pow16(n)
  }

  function Low(v: nat, n: nat): (h: nat) {
    v % Pow16(n)
  }

  lemma DivNat(v: nat, p: nat)
    requires p > 0
    ensures v / p >= 0
  {
  }

  lemma HighStep(v: nat, n: nat)
    ensures High(v, n + 1) == High(v, n) / 16
  {
    DivTwice(v, Pow16(n));
  }

  lemma SmallDiv(v: nat, p: nat)
    requires v < p
    ensures v / p == 0
  {
  }

  /** `write_hex_u32`, `write_hex_u16` and `write_hex_u48`: one digit per shift, from the top. */
  method WriteHex(buf: Bytes, v: nat, digits: nat) returns (out: Bytes)
    requires v < Pow16(digits)
    ensures out == buf + Hex(v, digits)
  {
    out := buf;
    var i := 0;
    SmallDiv(v, Pow16(digits));
    while i < digits
      invariant 0 <= i <= digits
      invariant out == buf + Hex(High(v, digits - i), i)
    {
      HighStep(v, digits - i - 1);
      var shifted := High(v, digits - i - 1);
      Assoc(buf, Hex(High(v, digits - i), i), [HexDigit(shifted % 16)]);
      out := out + [HexDigit(shifted % 16)];
      i := i + 1;
    }
  }

  // ------------------------------------------------------------------ printing

  function UuidText(most: i64, least: i64): (s: Bytes)
    ensures |s| == 36
  {
    BaseValues();
    var m, l := Unsigned(8, most), Unsigned(8, least);
    Hex(m / 0x1_0000_0000, 8) + [DASH] + Hex(m / 0x1_0000 % 0x1_0000, 4) + [DASH] + Hex(m % 0x1_0000, 4) + [DASH]
      + Hex(l / 0x1_0000_0000_0000, 4) + [DASH] + Hex(l % 0x1_0000_0000_0000, 12)
  }

  function GetUuid(s: Bytes): (p: Parse<Bytes>)
    ensures p.Got? ==> |p.rest| == |s| - 16
  {
    var (most, rest) :- GetI64(s);
    var (least, rest') :- GetI64(rest);
    Got(UuidText(most, least), rest')
  }

  lemma Pow16Values()
    ensures Pow16(4) == 0x1_0000 && Pow16(8) == 0x1_0000_0000 && Pow16(12) == 0x1_0000_0000_0000
    ensures Pow16(16) == 0x1_0000_0000_0000_0000
  {
    assert Pow16(2) == 0x100;
    assert Pow16(6) == 0x100_0000;
    assert Pow16(10) == 0x100_0000_0000;
    assert Pow16(14) == 0x100_0000_0000_0000;
  }

  /** `read_uuid_string` */
  method ReadUuidString(r: Reader) returns (res: Result<Bytes>)
    modifies r
    ensures Follows(GetUuid(old(r.rest)), res, r.rest)
  {
    var most := r.ReadI64();
    if most.Err? { return Err(most.fault); }
    var least := r.ReadI64();
    if least.Err? { return Err(least.fault); }
    BaseValues();
    Pow16Values();
    var m, l := Unsigned(8, most.value), Unsigned(8, least.value);
    var s := WriteHex([], m / 0x1_0000_0000, 8);
    assert s == Hex(m / 0x1_0000_0000, 8);
    s := s + [DASH];
    s := WriteHex(s, m / 0x1_0000 % 0x1_0000, 4);
    s := s + [DASH];
    s := WriteHex(s, m % 0x1_0000, 4);
    s := s + [DASH];
    s := WriteHex(s, l / 0x1_0000_0000_0000, 4);
    s := s + [DASH];
    s := WriteHex(s, l % 0x1_0000_0000_0000, 12);
    assert s == UuidText(most.value, least.value);
    res := Ok(s);
  }

  // ------------------------------------------------------------------ parsing

  /** `char::to_digit(16)` */
  function DigitValue(b: byte): int {
    if 48 <= b <= 57 then b - 48
    else if 97 <= b <= 102 then b - 87
    else if 65 <= b <= 70 then b - 55
    else -1
  }

  /** The digits of s in base 16; None on any other character. */
  function Digits(s: Bytes): (r: Result<nat>) {
    if s == [] then Ok(0)
    else
      match Digits(s[..|s| - 1])
      case Err(f) => Err(f)
      case Ok(high) =>
        var d := DigitValue(s[|s| - 1]);
        if d < 0 then Err(BadFormat) else Ok(16 * high + d)
  }

  /** `u64::from_str_radix(_, 16)` on sixteen bytes: a leading plus sign is accepted. */
  function FromStrRadix(s: Bytes): Result<nat> {
    if |s| > 1 && s[0] == 43 then Digits(s[1..]) else if s == [] then Err(BadFormat) else Digits(s)
  }

  function WithoutDashes(s: Bytes): Bytes {
    if s == [] then [] else (if s[0] == DASH then [] else [s[0]]) + WithoutDashes(s[1..])
  }

  function AsI64(n: nat): i64
    requires n < 0x1_0000_0000_0000_0000
  {
    if n < 0x8000_0000_0000_0000 then n else n - 0x1_0000_0000_0000_0000
  }

  /** `parse_uuid_parts` on the bytes of a string.  Slicing inside a multi-byte character panics. */
  function ParseUuidParts(text: Bytes): Result<(i64, i64)> {
    var hex := WithoutDashes(text);
    if |hex| != 32 then Err(BadFormat)
    else if 0x80 <= hex[16] < 0xC0 then Err(Panic)
    else
      match FromStrRadix(hex[..16])
      case Err(f) => Err(f)
      case Ok(most) =>
        match FromStrRadix(hex[16..])
        case Err(f) => Err(f)
        case Ok(least) =>
          // sixteen digits stay below 2^64
          if most < 0x1_0000_0000_0000_0000 && least < 0x1_0000_0000_0000_0000
          then Ok((AsI64(most), AsI64(least))) else Err(BadFormat)
  }

  // ------------------------------------------------------------------ the round trip

  predicate IsHex(s: Bytes) {
    forall i :: 0 <= i < |s| ==> 48 <= s[i] <= 57 || 97 <= s[i] <= 102
  }

  lemma {:induction false} HexIsHex(v: nat, n: nat)
    ensures IsHex(Hex(v, n))
  {
    if n > 0 { HexIsHex(v / 16, n - 1); }
  }

  lemma {:induction false} DigitsOfHex(v: nat, n: nat)
    requires v < Pow16(n)
    ensures Digits(Hex(v, n)) == Ok(v)
  {
    if n > 0 {
      DigitsOfHex(v / 16, n - 1);
      assert Hex(v, n)[..n - 1] == Hex(v / 16, n - 1);
    }
  }

  lemma SplitLast(v: nat, p: nat)
    requires p > 0
    ensures v / 16 / p == v / (16 * p)
    ensures v % (16 * p) / 16 == v / 16 % p && v % (16 * p) % 16 == v % 16
  {
    var w := v / 16;
    var q, r := w / p, w % p;
    calc {
      v;
      16 * (p * q + r) + v % 16;
      (16 * p) * q + (16 * r + v % 16);
    }
    DivModUnique(v, 16 * p, q, 16 * r + v % 16);
  }

  lemma SplitStep(v: nat, n: nat)
    ensures High(v / 16, n) == High(v, n + 1)
    ensures Low(v, n + 1) / 16 == Low(v / 16, n) && Low(v, n + 1) % 16 == v % 16
  {
    SplitLast(v, Pow16(n));
  }

  /** Printing the high part and the low part side by side prints the whole. */
  lemma {:induction false} HexSplit(v: nat, a: nat, b: nat)
    ensures Hex(v, a + b) == Hex(High(v, b), a) + Hex(Low(v, b), b)
  {
    if b > 0 {
      HexSplit(v / 16, a, b - 1);
      SplitStep(v, b - 1);
      Assoc(Hex(High(v, b), a), Hex(Low(v / 16, b - 1), b - 1), [HexDigit(v % 16)]);
    }
  }

  lemma {:induction false} DropDashesHex(s: Bytes)
    requires IsHex(s)
    ensures WithoutDashes(s) == s
  {
    if s != [] {
      DropDashesHex(s[1..]);
      assert s == [s[0]] + s[1..];
    }
  }

  lemma {:induction false} DropDashesConcat(a: Bytes, b: Bytes)
    ensures WithoutDashes(a + b) == WithoutDashes(a) + WithoutDashes(b)
  {
    if a == [] {
      assert a + b == b;
    } else {
      DropDashesConcat(a[1..], b);
      assert (a + b)[1..] == a[1..] + b;
      Assoc(if a[0] == DASH then [] else [a[0]], WithoutDashes(a[1..]), WithoutDashes(b));
    }
  }

  lemma DropOneDash()
    ensures WithoutDashes([DASH]) == []
  {
    assert [DASH][1..] == [];
  }

  lemma DropDash(a: Bytes, h: Bytes)
    requires IsHex(h)
    ensures WithoutDashes(a + [DASH] + h) == WithoutDashes(a) + h
  {
    DropDashesConcat(a + [DASH], h);
    DropDashesConcat(a, [DASH]);
    DropOneDash();
    DropDashesHex(h);
    var d := WithoutDashes(a);
    assert d + [] == d;
  }

  /** Without its dashes the text is the two halves in sixteen digits each. */
  lemma TextDigits(most: i64, least: i64)
    ensures Fits(8, most) && Fits(8, least)
    ensures WithoutDashes(UuidText(most, least)) == Hex(Unsigned(8, most), 16) + Hex(Unsigned(8, least), 16)
  {
    BaseValues();
    Pow16Values();
    var m, l := Unsigned(8, most), Unsigned(8, least);
    var a, b, c := Hex(m / 0x1_0000_0000, 8), Hex(m / 0x1_0000 % 0x1_0000, 4), Hex(m % 0x1_0000, 4);
    var d, e := Hex(l / 0x1_0000_0000_0000, 4), Hex(l % 0x1_0000_0000_0000, 12);
    HexIsHex(m / 0x1_0000_0000, 8);
    HexIsHex(m / 0x1_0000 % 0x1_0000, 4);
    HexIsHex(m % 0x1_0000, 4);
    HexIsHex(l / 0x1_0000_0000_0000, 4);
    HexIsHex(l % 0x1_0000_0000_0000, 12);
    DropDashesHex(a);
    DropDash(a, b);
    DropDash(a + [DASH] + b, c);
    DropDash(a + [DASH] + b + [DASH] + c, d);
    DropDash(a + [DASH] + b + [DASH] + c + [DASH] + d, e);
    HexSplit(m, 12, 4);
    HexSplit(m / 0x1_0000, 8, 4);
    assert m / 0x1_0000 / 0x1_0000 == m / 0x1_0000_0000;
    HexSplit(l, 4, 12);
    Assoc(a + b + c, d, e);
  }

  lemma ParseHalves(text: Bytes, a: Bytes, b: Bytes, m: u64, l: u64)
    requires WithoutDashes(text) == a + b && |a| == |b| == 16 && IsHex(b)
    requires FromStrRadix(a) == Ok(m) && FromStrRadix(b) == Ok(l)
    ensures ParseUuidParts(text) == Ok((AsI64(m), AsI64(l)))
  {
  }

  lemma RadixOfHex(v: u64)
    ensures FromStrRadix(Hex(v, 16)) == Ok(v)
  {
    Pow16Values();
    HexIsHex(v, 16);
    DigitsOfHex(v, 16);
  }

  lemma AsI64OfUnsigned(v: i64)
    ensures Fits(8, v) && Unsigned(8, v) < 0x1_0000_0000_0000_0000 && AsI64(Unsigned(8, v)) == v
  {
    BaseValues();
  }

  /** Parsing the printed form of any two 64-bit halves returns them. */
  lemma UuidRoundTrip(most: i64, least: i64)
    ensures ParseUuidParts(UuidText(most, least)) == Ok((most, least))
  {
    AsI64OfUnsigned(most);
    AsI64OfUnsigned(least);
    var m, l := Unsigned(8, most), Unsigned(8, least);
    TextDigits(most, least);
    RadixOfHex(m);
    RadixOfHex(l);
    HexIsHex(l, 16);
    ParseHalves(UuidText(most, least), Hex(m, 16), Hex(l, 16), m, l);
  }

  /** 36 characters, dashes at 8, 13, 18 and 23, hexadecimal digits elsewhere. */
  lemma UuidShape(most: i64, least: i64)
    ensures var s := UuidText(most, least);
      && |s| == 36
      && forall i :: 0 <= i < 36 ==> (s[i] == DASH <==> i == 8 || i == 13 || i == 18 || i == 23)
  {
    BaseValues();
    var m, l := Unsigned(8, most), Unsigned(8, least);
    HexIsHex(m / 0x1_0000_0000, 8);
    HexIsHex(m / 0x1_0000 % 0x1_0000, 4);
    HexIsHex(m % 0x1_0000, 4);
    HexIsHex(l / 0x1_0000_0000_0000, 4);
    HexIsHex(l % 0x1_0000_0000_0000, 12);
  }

  /** Different nodes never share a text form. */
  lemma UuidInjective(most: i64, least: i64, most': i64, least': i64)
    requires UuidText(most, least) == UuidText(most', least')
    ensures most == most' && least == least'
  {
    UuidRoundTrip(most, least);
    UuidRoundTrip(most', least');
  }

  // ------------------------------------------------------------------ what parsing refuses

  /** Anything that is not 32 bytes long without its dashes. */
  lemma WrongLengthRefused(text: Bytes)
    requires |WithoutDashes(text)| != 32
    ensures ParseUuidParts(text) == Err(BadFormat)
  {
  }

  lemma {:induction false} BadDigit(s: Bytes, i: nat)
    requires i < |s| && DigitValue(s[i]) < 0
    ensures Digits(s) == Err(BadFormat)
  {
    if i < |s| - 1 { BadDigit(s[..|s| - 1], i); } else { DigitsFault(s[..|s| - 1]); }
  }

  lemma {:induction false} DigitsFault(s: Bytes)
    ensures Digits(s).Err? ==> Digits(s).fault == BadFormat
  {
    if s != [] { DigitsFault(s[..|s| - 1]); }
  }

  /** A character that is no hexadecimal digit, unless it is a plus sign in front of a half. */
  lemma BadCharacterRefused(text: Bytes, i: nat)
    requires |WithoutDashes(text)| == 32 && i < 32 && DigitValue(WithoutDashes(text)[i]) < 0
    requires WithoutDashes(text)[0] != 43 && WithoutDashes(text)[16] != 43
    ensures ParseUuidParts(text).Err?
  {
    var hex := WithoutDashes(text);
    var a, b := hex[..16], hex[16..];
    if i < 16 {
      assert a[i] == hex[i];
      BadDigit(a, i);
    } else {
      assert b[i - 16] == hex[i];
      BadDigit(b, i - 16);
    }
  }
}
