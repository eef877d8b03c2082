/** UTF-8, as Rust strings store it and as `String::from_utf8` checks it. */
module Utf8 {
  import opened Wire

  type Scalar = c: int | 0 <= c < 0xD800 || 0xE000 <= c < 0x11_0000

  function EncodeChar(c: Scalar): (s: Bytes)
    ensures 1 <= |s| <= 4
  {
    if c < 0x80 then [c]
    else if c < 0x800 then [0xC0 + c / 64, 0x80 + c % 64]
    else if c < 0x1_0000 then [0xE0 + c / 4096, 0x80 + c / 64 % 64, 0x80 + c % 64]
    else [0xF0 + c / 0x4_0000, 0x80 + c / 4096 % 64, 0x80 + c / 64 % 64, 0x80 + c % 64]
  }

  function Encode(cs: seq<Scalar>): (s: Bytes)
    ensures |s| >= |cs|
  {
    if cs == [] then [] else EncodeChar(cs[0]) + Encode(cs[1..])
  }

  /** The payload of a continuation byte. */
  function Tail(b: byte): int {
    b - 0x80
  }

  predicate Continues(s: Bytes, n: nat) {
    n <= |s| && forall i :: 1 <= i < n ==> 0x80 <= s[i] < 0xC0
  }

  /** The first character of s; overlong forms, surrogates and values above 0x10FFFF are refused. */
  function DecodeChar(s: Bytes): (p: Parse<Scalar>)
    ensures p.Got? ==> |p.rest| < |s|
  {
    if s == [] then Bad(EndOfInput)
    else
      var lead: int := s[0];
      if lead < 0x80 then Got(lead, s[1..])
      else if 0xC0 <= lead < 0xE0 && Continues(s, 2) then
        Checked(64 * (lead - 0xC0) + Tail(s[1]), 0x80, s[2..])
      else if 0xE0 <= lead < 0xF0 && Continues(s, 3) then
        Checked(4096 * (lead - 0xE0) + 64 * Tail(s[1]) + Tail(s[2]), 0x800, s[3..])
      else if 0xF0 <= lead < 0xF8 && Continues(s, 4) then
        Checked(0x4_0000 * (lead - 0xF0) + 4096 * Tail(s[1]) + 64 * Tail(s[2]) + Tail(s[3]), 0x1_0000, s[4..])
      else Bad(BadUtf8)
  }

  function Checked(c: int, least: int, rest: Bytes): (p: Parse<Scalar>)
    ensures p.Got? ==> p.rest == rest
  {
    if least <= c < 0x11_0000 && !(0xD800 <= c < 0xE000) && c >= 0 then Got(c, rest) else Bad(BadUtf8)
  }

  function Decode(s: Bytes): Result<seq<Scalar>>
    decreases |s|
  {
    if s == [] then Ok([])
    else
      match DecodeChar(s)
      case Bad(_) => Err(BadUtf8)
      case Got(c, rest) =>
        match Decode(rest)
        case Err(f) => Err(f)
        case Ok(cs) => Ok([c] + cs)
  }

  lemma Digits64(c: nat)
    ensures c == 64 * (c / 64) + c % 64
    ensures c == 4096 * (c / 4096) + 64 * (c / 64 % 64) + c % 64
    ensures c == 0x4_0000 * (c / 0x4_0000) + 4096 * (c / 4096 % 64) + 64 * (c / 64 % 64) + c % 64
  {
    assert c / 64 / 64 == c / 4096;
    assert c / 4096 / 64 == c / 0x4_0000;
  }

  lemma DecodeCharOfEncode(c: Scalar, rest: Bytes)
    ensures DecodeChar(EncodeChar(c) + rest) == Got(c, rest)
  {
    var e := EncodeChar(c);
    var s := e + rest;
    assert s[|e|..] == rest;
    Digits64(c);
    if c < 0x80 {
    } else if c < 0x800 {
      assert s[0] == 0xC0 + c / 64 && s[1] == 0x80 + c % 64;
    } else if c < 0x1_0000 {
      assert s[0] == 0xE0 + c / 4096 && s[1] == 0x80 + c / 64 % 64 && s[2] == 0x80 + c % 64;
    } else {
      assert s[0] == 0xF0 + c / 0x4_0000 && s[1] == 0x80 + c / 4096 % 64;
      assert s[2] == 0x80 + c / 64 % 64 && s[3] == 0x80 + c % 64;
    }
  }

  lemma {:induction false} DecodeOfEncode(cs: seq<Scalar>)
    ensures Decode(Encode(cs)) == Ok(cs)
  {
    if cs != [] {
      DecodeCharOfEncode(cs[0], Encode(cs[1..]));
      DecodeOfEncode(cs[1..]);
      assert cs == [cs[0]] + cs[1..];
    }
  }

  lemma Two(lead: int, t1: int)
    requires 0 <= lead < 32 && 0 <= t1 < 64
    ensures (64 * lead + t1) / 64 == lead && (64 * lead + t1) % 64 == t1
  {
  }

  lemma Three(lead: int, t1: int, t2: int)
    requires 0 <= lead < 16 && 0 <= t1 < 64 && 0 <= t2 < 64
    ensures var c := 4096 * lead + 64 * t1 + t2; c / 4096 == lead && c / 64 % 64 == t1 && c % 64 == t2
  {
    var c := 4096 * lead + 64 * t1 + t2;
    assert c / 64 == 64 * lead + t1;
  }

  lemma Four(lead: int, t1: int, t2: int, t3: int)
    requires 0 <= lead < 8 && 0 <= t1 < 64 && 0 <= t2 < 64 && 0 <= t3 < 64
    ensures var c := 0x4_0000 * lead + 4096 * t1 + 64 * t2 + t3;
      c / 0x4_0000 == lead && c / 4096 % 64 == t1 && c / 64 % 64 == t2 && c % 64 == t3
  {
    var c := 0x4_0000 * lead + 4096 * t1 + 64 * t2 + t3;
    assert c / 64 == 4096 * lead + 64 * t1 + t2;
    assert c / 4096 == 64 * lead + t1;
  }

  lemma EncodeOfThree(s: Bytes)
    requires DecodeChar(s).Got? && 0xE0 <= s[0] < 0xF0
    ensures s == EncodeChar(DecodeChar(s).value) + DecodeChar(s).rest
  {
    Three(s[0] - 0xE0, s[1] - 0x80, s[2] - 0x80);
    assert s == [s[0], s[1], s[2]] + s[3..];
  }

  lemma EncodeOfFour(s: Bytes)
    requires DecodeChar(s).Got? && 0xF0 <= s[0]
    ensures s == EncodeChar(DecodeChar(s).value) + DecodeChar(s).rest
  {
    Four(s[0] - 0xF0, s[1] - 0x80, s[2] - 0x80, s[3] - 0x80);
    assert s == [s[0], s[1], s[2], s[3]] + s[4..];
  }

  lemma EncodeOfDecodeChar(s: Bytes)
    requires DecodeChar(s).Got?
    ensures s == EncodeChar(DecodeChar(s).value) + DecodeChar(s).rest
  {
    if s[0] < 0x80 {
      assert s == [s[0]] + s[1..];
    } else if s[0] < 0xE0 {
      Two(s[0] - 0xC0, s[1] - 0x80);
      assert s == [s[0], s[1]] + s[2..];
    } else if s[0] < 0xF0 {
      EncodeOfThree(s);
    } else {
      EncodeOfFour(s);
    }
  }

  /** Nothing but the encoding of a string is accepted: no overlong form, no surrogate, nothing past the last plane. */
  lemma {:induction false} EncodeOfDecode(s: Bytes)
    requires Decode(s).Ok?
    ensures Encode(Decode(s).value) == s
    decreases |s|
  {
    if s != [] {
      var p := DecodeChar(s);
      EncodeOfDecodeChar(s);
      EncodeOfDecode(p.rest);
      assert Decode(s).value[1..] == Decode(p.rest).value;
    }
  }
}
