/** The wire format in literal bytes: type codes, byte order, and answers worked out by hand. */
module WireFormat {
  import opened Wire
  import opened Bits
  import opened Utf8
  import opened Uuid
  import opened JavaHash
  import opened JavaStrings
  import opened Codec
  import opened CodecRoundTrip
  import opened KeyHashing
  import opened Affinity

  /** Byte i of an integer is its i-th digit in base 256: lowest first. */
  lemma {:induction false} LittleEndian(width: nat, n: nat, i: nat)
    requires i < width
    ensures LE(width, n)[i] == Shifted(n, i) % 256
  {
    if i > 0 {
      LittleEndian(width - 1, n / 256, i - 1);
    }
  }

  /** n shifted right by i bytes. */
  function Shifted(n: nat, i: nat): nat {
    if i == 0 then n else Shifted(n / 256, i - 1)
  }

  /** Every value starts with the code the protocol gives its type. */
  lemma {:induction false} TypeCodes(t: Ty, v: Val)
    requires HasType(v, t)
    ensures |Write(t, v)| > 0
    ensures var code := Write(t, v)[0];
      match t
      case Prim(U8) => code == 1
      case Prim(I16) => code == 2
      case Prim(I32) => code == 3
      case Prim(I64) => code == 4
      case Prim(F32) => code == 5
      case Prim(F64) => code == 6
      case Prim(U16) => code == 7
      case Prim(Boolean) => code == 8
      case Str => code == 9
      case Arr(U8) => code == 12
      case Arr(I16) => code == 13
      case Arr(I32) => code == 14
      case Arr(I64) => code == 15
      case Arr(F32) => code == 16
      case Arr(F64) => code == 17
      case Arr(U16) => code == 18
      case Arr(Boolean) => code == 19
      case ObjArr(_) => code == 23
      case EnumT => code == 28
      case Struct(_, _) => code == 103
      case Opt(e) => if v.Nothing? then Write(t, v) == [101] else Write(t, v) == Write(e, v.v)
  {
    LeadingCode(t, v);
  }

  /** Behind the code: a string has its length in bytes, an array its length in elements, an object array the type id
      -1 and its length, an enum its type id and ordinal. */
  lemma LengthsAndParts(t: Ty, v: Val)
    requires HasType(v, t)
    ensures t.Str? ==> SliceIs(Write(t, v), 1, PutI32(|Encode(v.chars)|)) && SliceIs(Write(t, v), 5, Encode(v.chars))
    ensures t.Arr? ==> SliceIs(Write(t, v), 1, PutI32(|v.ns|)) && SliceIs(Write(t, v), 5, PutPrims(t.k, v.ns))
    ensures t.ObjArr? ==> SliceIs(Write(t, v), 1, PutI32(-1)) && SliceIs(Write(t, v), 5, PutI32(|v.items|))
    ensures t.EnumT? ==> SliceIs(Write(t, v), 1, PutI32(v.typeId)) && SliceIs(Write(t, v), 5, PutI32(v.ordinal))
  {
    match t
    case Str => TwoParts(9, PutI32(|Encode(v.chars)|), Encode(v.chars), []);
      assert Encode(v.chars) + [] == Encode(v.chars);
    case Arr(k) => TwoParts(ArrCode(k), PutI32(|v.ns|), PutPrims(k, v.ns), []);
      assert PutPrims(k, v.ns) + [] == PutPrims(k, v.ns);
    case ObjArr(e) => TwoParts(23, PutI32(-1), PutI32(|v.items|), WriteItems(e, v.items));
    case EnumT => TwoParts(28, PutI32(v.typeId), PutI32(v.ordinal), []);
      assert PutI32(v.ordinal) + [] == PutI32(v.ordinal);
    case _ =>
  }

  lemma TwoParts(code: byte, a: Bytes, b: Bytes, rest: Bytes)
    requires |a| == 4
    ensures SliceIs([code] + (a + (b + rest)), 1, a) && SliceIs([code] + (a + (b + rest)), 5, b)
  {
    SliceSelf(a);
    SliceLeft(a, b + rest, 0, a);
    SliceRight([code], a + (b + rest), 0, a);
    SliceSelf(b);
    SliceLeft(b, rest, 0, b);
    SliceRight(a, b + rest, 0, b);
    SliceRight([code], a + (b + rest), 4, b);
  }

  lemma PutSmall(n: i32)
    requires 0 <= n < 256
    ensures PutI32(n) == [n, 0, 0, 0]
  {
    BaseValues();
    assert LE(4, n) == [n] + LE(3, 0);
    assert LE(3, 0) == [0] + LE(2, 0);
    assert LE(2, 0) == [0] + LE(1, 0);
    assert LE(1, 0) == [0] + LE(0, 0);
  }

  // ------------------------------------------------------------------ the answers of the routing tests

  /** 42 as an int hashes to 42. */
  lemma HashOf42()
    ensures AffinityHash([3, 42, 0, 0, 0]) == Known(42)
  {
    PutSmall(42);
    GetPutI32(42, []);
    assert [42, 0, 0, 0] + [] == [3, 42, 0, 0, 0][1..];
  }

  /** Booleans hash to 1231 and 1237. */
  lemma HashOfBooleans()
    ensures AffinityHash([8, 1]) == Known(1231) && AffinityHash([8, 0]) == Known(1237)
  {
    assert [8, 1][1..] == [1] && [8, 0][1..] == [0];
  }

  lemma EncodeAbc()
    ensures Encode([97, 98, 99]) == [97, 98, 99]
  {
    assert [97, 98, 99][1..] == [98, 99] && [98, 99][1..] == [99] && [99][1..] == [];
    assert Encode([99]) == [99] + [];
    assert Encode([98, 99]) == [98] + Encode([99]);
    assert Encode([97, 98, 99]) == [97] + Encode([98, 99]);
  }

  lemma PolyHashAbc()
    ensures PolyHash(0, [97, 98, 99]) == 96354
  {
    HornerThree(97, 98, 99);
    WrapFits(96354);
  }

  /** "abc" hashes to 96354. */
  lemma HashOfAbc()
    ensures AffinityHash([9, 3, 0, 0, 0, 97, 98, 99]) == Known(96354)
  {
    var cs: seq<Scalar> := [97, 98, 99];
    EncodeAbc();
    PolyHashAbc();
    PutSmall(3);
    TextHashed(cs, []);
    assert [9] + (PutI32(3) + [97, 98, 99]) + [] == [9, 3, 0, 0, 0, 97, 98, 99];
  }

  /** Bytes and shorts are signed, chars are not, and the halves of a long cancel out. */
  lemma HashOfSmallTypes()
    ensures AffinityHash([1, 255]) == Known(-1)
    ensures AffinityHash([2, 255, 255]) == Known(-1)
    ensures AffinityHash([7, 255, 255]) == Known(65535)
  {
    BaseValues();
    assert [1, 255][1..] == [255] && [2, 255, 255][1..] == [255, 255] && [7, 255, 255][1..] == [255, 255];
    assert [255][..1] == [255] && [255, 255][..2] == [255, 255];
    AllOnes();
  }

  lemma AllOnes()
    ensures FromLE([255]) == 255 && FromLE([255, 255]) == 65535
  {
    assert [255][1..] == [] && [255, 255][1..] == [255];
    assert FromLE([]) == 0;
    assert FromLE([255]) == 255 + 256 * FromLE([]);
    assert FromLE([255, 255]) == 255 + 256 * FromLE([255]);
  }

  /** Partitions: a masked hash, and remainders of negative hashes down to the smallest. */
  lemma MaskedPartition()
    ensures Rendezvous(42, 16) == 10
  {
    PowersOfTwo();
    RendezvousMeaning(42, 16);
    BaseValues();
    XorZero(42);
  }

  lemma NegativePartitions()
    ensures Rendezvous(-5, 10) == 5 && Rendezvous(-5, 3) == 2
  {
    PowersOfTwo();
    RendezvousMeaning(-5, 10);
    RendezvousMeaning(-5, 3);
  }

  lemma SmallestHashPartition()
    ensures Rendezvous(-0x8000_0000, 3) == 2
  {
    PowerOfTwoTest(3);
    RendezvousMeaning(-0x8000_0000, 3);
  }

  lemma OnlyPartition(hash: i32)
    ensures Rendezvous(hash, 1) == 0
  {
    RendezvousMeaning(hash, 1);
  }

  lemma PowersOfTwo()
    ensures IsPow2(16) && IsPow2(1) && !IsPow2(10) && !IsPow2(3)
  {
    assert Pow2(4) == 16 && Pow2(0) == 1;
    PowerOfTwoTest(10);
    PowerOfTwoTest(3);
  }

  // ------------------------------------------------------------------ malformed keys

  /** An array with a negative length hashes like an empty one; a string with one panics. */
  lemma NegativeLengthKeys(len: i32, rest: Bytes)
    requires len < 0
    ensures AffinityHash([12] + (PutI32(len) + rest)) == Known(1)
    ensures AffinityHash([9] + (PutI32(len) + rest)) == Aborts
  {
    GetPutI32(len, rest);
    assert ([12] + (PutI32(len) + rest))[1..] == PutI32(len) + rest;
    assert ([9] + (PutI32(len) + rest))[1..] == PutI32(len) + rest;
    PolyHashEmpty(1);
  }

  /** An object shorter than twelve bytes has no hash. */
  lemma ShortObjectKey(bytes: Bytes)
    requires 0 < |bytes| < 12 && bytes[0] == 103
    ensures AffinityHash(bytes) == Unknown
  {
  }

  // ------------------------------------------------------------------ text

  /** The euro sign in UTF-8. */
  lemma EuroSign()
    ensures EncodeChar(0x20AC) == [0xE2, 0x82, 0xAC]
  {
  }

  /** Digit i of a number in n hexadecimal digits, most significant first, is its digit n - 1 - i from the right. */
  lemma {:induction false} HexDigits(v: nat, n: nat, i: nat)
    requires i < n
    ensures Hex(v, n)[i] == HexDigit(NibblesOff(v, n - 1 - i) % 16)
  {
    if i < n - 1 { HexDigits(v / 16, n - 1, i); }
  }

  /** v without its last k hexadecimal digits. */
  function NibblesOff(v: nat, k: nat): nat {
    if k == 0 then v else NibblesOff(v / 16, k - 1)
  }

  /** The digits are 0 to 9 and a to f. */
  lemma DigitCharacters(d: nat)
    requires d < 16
    ensures HexDigit(d) == [48, 49, 50, 51, 52, 53, 54, 55, 56, 57, 97, 98, 99, 100, 101, 102][d]
  {
  }
}
