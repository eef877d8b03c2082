/** Inputs the writers never produce: the collection layout, which readers accept, and what readers refuse. */
module CodecRefusals {
  import opened Wire
  import opened Bits
  import opened Utf8
  import opened Codec
  import opened CodecRoundTrip

  // ------------------------------------------------------------------ collections

  /** A collection on the wire: code 24, length, a kind byte, the elements. */
  function Collection(e: Ty, kind: byte, items: seq<Val>): Bytes
    requires |items| < MAX_LEN && forall i :: 0 <= i < |items| ==> HasType(items[i], Opt(e))
  {
    [24] + (PutI32(|items|) + ([kind] + WriteItems(e, items)))
  }

  lemma Behind(b: byte, rest: Bytes)
    ensures ([b] + rest)[0] == b && ([b] + rest)[1..] == rest
  {
  }

  lemma ReadsBehind(t: Ty, b: byte, rest: Bytes)
    requires KnownCode(b) && b != NULL && b != WRAPPED
    ensures Read(t, [b] + rest) == ReadUnwrapped(t, b, rest)
  {
    Behind(b, rest);
  }

  lemma CollectionBody(e: Ty, len: i32, kind: byte, s: Bytes)
    ensures ReadUnwrapped(ObjArr(e), 24, PutI32(len) + ([kind] + s)) == ReadObjs(e, len, s)
  {
    GetPutI32(len, [kind] + s);
    SkipPrefix([kind], s);
  }

  lemma ArrayBody(e: Ty, ignored: i32, len: i32, s: Bytes)
    ensures ReadUnwrapped(ObjArr(e), 23, PutI32(ignored) + (PutI32(len) + s)) == ReadObjs(e, len, s)
  {
    SkipPrefix(PutI32(ignored), PutI32(len) + s);
    GetPutI32(len, s);
  }

  lemma ObjectsBack(e: Ty, items: seq<Val>, rest: Bytes)
    requires |items| < MAX_LEN && forall i :: 0 <= i < |items| ==> HasType(items[i], Opt(e))
    ensures ReadObjs(e, |items|, WriteItems(e, items) + rest) == ReadBack(Objs(items), rest)
  {
    ItemsOfWrite(e, items, rest);
    ReadBackNonNull(Objs(items), rest);
  }

  /** Whatever its kind, a collection reads back as the object array with the same elements. */
  lemma CollectionReadsAsArray(e: Ty, kind: byte, items: seq<Val>, rest: Bytes)
    requires |items| < MAX_LEN && forall i :: 0 <= i < |items| ==> HasType(items[i], Opt(e))
    ensures Read(ObjArr(e), Collection(e, kind, items) + rest) == ReadBack(Objs(items), rest)
    ensures Read(ObjArr(e), Write(ObjArr(e), Objs(items)) + rest) == ReadBack(Objs(items), rest)
  {
    var s := WriteItems(e, items) + rest;
    assert Collection(e, kind, items) + rest == [24] + (PutI32(|items|) + ([kind] + s));
    ReadsBehind(ObjArr(e), 24, PutI32(|items|) + ([kind] + s));
    CollectionBody(e, |items|, kind, s);
    ObjectsBack(e, items, rest);
    ReadOfWrite(ObjArr(e), Objs(items), rest);
  }

  // ------------------------------------------------------------------ object headers

  lemma AndOne(x: nat)
    ensures And(x, 1) == x % 2
  {
  }

  lemma AndDouble(x: nat, y: nat)
    ensures And(x, 2 * y) == 2 * And(x / 2, y)
  {
    if x > 0 && y > 0 {
      var z := 2 * y;
      assert z / 2 == y && z % 2 == 0;
      assert And(x, z) == 2 * And(x / 2, z / 2);
    }
  }

  /** Bits 1, 3, 4 and 5 of the flags. */
  lemma Bit1(f: nat)
    ensures And(f, 2) == 2 * (f / 2 % 2)
  {
    AndDouble(f, 1);
    AndOne(f / 2);
  }

  lemma Bit2(f: nat)
    ensures And(f, 4) == 4 * (f / 4 % 2)
  {
    AndDouble(f, 2);
    Bit1(f / 2);
  }

  lemma Bit3(f: nat)
    ensures And(f, 8) == 8 * (f / 8 % 2)
  {
    AndDouble(f, 4);
    Bit2(f / 2);
  }

  lemma Bit4(f: nat)
    ensures And(f, 16) == 16 * (f / 16 % 2)
  {
    AndDouble(f, 8);
    Bit3(f / 2);
  }

  lemma Bit5(f: nat)
    ensures And(f, 32) == 32 * (f / 32 % 2)
  {
    AndDouble(f, 16);
    Bit4(f / 2);
  }

  lemma FlagBits(f: nat)
    ensures GoodFlags(f) <==> f / 2 % 2 == 1 && f / 8 % 2 == 0 && f / 16 % 2 == 0 && f / 32 % 2 == 0
  {
    Bit1(f);
    Bit3(f);
    Bit4(f);
    Bit5(f);
  }

  /** The derived reader takes a header if and only if the schema bit is set, the compact-footer bit and both offset
      bits are clear, and the type id is its own; version, hash, length, schema id and footer offset do not matter. */
  lemma HeaderAcceptedExactlyWhen(typeId: i32, version: byte, flags: u16, id: i32, ints: Bytes, rest: Bytes)
    requires |ints| == 16
    ensures GetHeader(typeId, [version] + (PutU(2, flags) + (PutI32(id) + (ints + rest)))) ==
      if flags / 2 % 2 == 1 && flags / 8 % 2 == 0 && flags / 16 % 2 == 0 && flags / 32 % 2 == 0 && id == typeId
      then Got((), rest) else Bad(BadFormat)
  {
    BaseValues();
    SkipPrefix([version], PutU(2, flags) + (PutI32(id) + (ints + rest)));
    GetPutU(2, flags, PutI32(id) + (ints + rest));
    GetPutI32(id, ints + rest);
    SkipPrefix(ints, rest);
    FlagBits(flags);
  }

  // ------------------------------------------------------------------ type codes and lengths

  /** Codes that name no type are refused by every reader. */
  lemma UnknownCodeRefused(t: Ty, b: byte, rest: Bytes)
    requires b == 0 || b == 26 || 39 <= b <= 100 || 104 <= b <= 252 || b == 255
    ensures Read(t, [b] + rest) == Bad(BadTypeCode)
  {
    Behind(b, rest);
  }

  /** All others are taken: none of them leads to that error. */
  lemma OtherCodesKnown(b: byte)
    ensures KnownCode(b) <==> !(b == 0 || b == 26 || 39 <= b <= 100 || 104 <= b <= 252 || b == 255)
  {
  }

  /** An object array accepts the codes 23 and 24 only. */
  lemma WrongContainerRefused(e: Ty, b: byte, rest: Bytes)
    requires KnownCode(b) && b != 23 && b != 24 && b != 27 && b != 101
    ensures Read(ObjArr(e), [b] + rest) == Bad(BadFormat)
  {
    Behind(b, rest);
  }

  /** A negative length makes strings and both kinds of arrays panic. */
  lemma NegativeLengthPanics(len: i32, e: Ty, k: Kind, kind: byte, ignored: i32, rest: Bytes)
    requires len < 0
    ensures Read(Str, [9] + (PutI32(len) + rest)) == Bad(Panic)
    ensures Read(Arr(k), [ArrCode(k)] + (PutI32(len) + rest)) == Bad(Panic)
    ensures Read(ObjArr(e), [23] + (PutI32(ignored) + (PutI32(len) + rest))) == Bad(Panic)
    ensures Read(ObjArr(e), [24] + (PutI32(len) + ([kind] + rest))) == Bad(Panic)
  {
    GetPutI32(len, rest);
    Behind(9, PutI32(len) + rest);
    Behind(ArrCode(k), PutI32(len) + rest);
    NegativeObjects(len, e, kind, ignored, rest);
  }

  lemma NegativeObjects(len: i32, e: Ty, kind: byte, ignored: i32, rest: Bytes)
    requires len < 0
    ensures Read(ObjArr(e), [23] + (PutI32(ignored) + (PutI32(len) + rest))) == Bad(Panic)
    ensures Read(ObjArr(e), [24] + (PutI32(len) + ([kind] + rest))) == Bad(Panic)
  {
    ReadsBehind(ObjArr(e), 23, PutI32(ignored) + (PutI32(len) + rest));
    ReadsBehind(ObjArr(e), 24, PutI32(len) + ([kind] + rest));
    ArrayBody(e, ignored, len, rest);
    CollectionBody(e, len, kind, rest);
  }

  /** A string longer than what is left ends in the end-of-input fault. */
  lemma ShortStringRefused(len: i32, rest: Bytes)
    requires len > |rest|
    ensures Read(Str, [9] + (PutI32(len) + rest)) == Bad(EndOfInput)
  {
    ReadsBehind(Str, 9, PutI32(len) + rest);
    ShortText(len, rest);
  }

  lemma ShortText(len: i32, rest: Bytes)
    requires len > |rest|
    ensures GetText(PutI32(len) + rest) == Bad(EndOfInput)
  {
    GetPutI32(len, rest);
  }

  /** Any byte but zero is true. */
  lemma NonzeroIsTrue(b: byte, rest: Bytes)
    ensures Read(Prim(Boolean), [8, b] + rest) == Got(Just(Num(if b == 0 then 0 else 1)), rest)
  {
    assert [8, b] + rest == [8] + ([b] + rest);
    Behind(8, [b] + rest);
    Behind(b, rest);
  }
}
