/** The hash of a key, recomputed from its marshalled bytes, equals the Java hash of the key itself. */
module KeyHashing {
  import opened Wire
  import opened Utf8
  import opened JavaHash
  import opened Codec
  import opened CodecRoundTrip

  /** `Option<i32>`; `Aborts` is the panic of allocating a negative length. */
  datatype Hash = Known(h: i32) | Unknown | Aborts

  // ------------------------------------------------------------------ from bytes

  /** What one element read from the wire contributes. */
  function GetItem(k: Kind, s: Bytes): (p: Parse<i32>)
    ensures p.Got? ==> |p.rest| < |s|
  {
    BaseValues();
    match k
    case U8 => (var (x, rest) :- GetI(1, s); Got(x, rest))
    case I16 => (var (x, rest) :- GetI(2, s); Got(x, rest))
    case U16 => (var (x, rest) :- GetU(2, s); Got(x, rest))
    case I32 | F32 => GetI32(s)
    case I64 | F64 => (var (x, rest) :- GetI64(s); Got(LongHash(x), rest))
    case Boolean => (var (x, rest) :- GetBool(s); Got(if x then 1231 else 1237, rest))
  }

  function GetItems(k: Kind, n: nat, s: Bytes): (p: Parse<seq<i32>>) {
    if n == 0 then Got([], s)
    else
      var (x, rest) :- GetItem(k, s);
      var (xs, rest') :- GetItems(k, n - 1, rest);
      Got([x] + xs, rest')
  }

  /** Java's `Arrays.hashCode` of the array that follows; a negative length counts as empty. */
  function ArrayHash(k: Kind, s: Bytes): Hash {
    match GetI32(s)
    case Bad(_) => Unknown
    case Got(len, rest) => ItemsHash(GetItems(k, Count(len), rest))
  }

  function Count(len: i32): nat {
    if len < 0 then 0 else len
  }

  function ItemsHash(p: Parse<seq<i32>>): Hash {
    match p
    case Bad(_) => Unknown
    case Got(xs, _) => Known(PolyHash(1, xs))
  }

  lemma PrependNext(k: Kind, done: seq<i32>, n: nat, s: Bytes)
    requires n > 0
    ensures match GetItem(k, s)
      case Bad(f) => Prepend(done, GetItems(k, n, s)) == Bad(f)
      case Got(x, rest) => Prepend(done, GetItems(k, n, s)) == Prepend(done + [x], GetItems(k, n - 1, rest))
  {
    if GetItem(k, s).Got? {
      var x, rest := GetItem(k, s).value, GetItem(k, s).rest;
      PrependTwice(done, [x], GetItems(k, n - 1, rest));
    }
  }

  method ReadItem(k: Kind, r: Reader) returns (res: Result<i32>)
    modifies r
    ensures Follows(GetItem(k, old(r.rest)), res, r.rest)
  {
    BaseValues();
    match k {
      case U8 =>
        var x := r.ReadInt(1);
        res := if x.Ok? then Ok(x.value) else Err(x.fault);
      case I16 =>
        var x := r.ReadInt(2);
        res := if x.Ok? then Ok(x.value) else Err(x.fault);
      case U16 =>
        var x := r.ReadNat(2);
        res := if x.Ok? then Ok(x.value) else Err(x.fault);
      case I32 | F32 =>
        res := r.ReadI32();
      case I64 | F64 =>
        var x := r.ReadI64();
        res := if x.Ok? then Ok(LongHash(x.value)) else Err(x.fault);
      case Boolean =>
        var x := r.ReadBool();
        res := if x.Ok? then Ok(if x.value then 1231 else 1237) else Err(x.fault);
    }
  }

  /** `array_hash_i8` and its five siblings. */
  method ArrayHashLoop(k: Kind, r: Reader) returns (hash: Hash)
    modifies r
    ensures hash == ArrayHash(k, old(r.rest))
  {
    var len := r.ReadI32();
    if len.Err? { return Unknown; }
    var result: i32 := 1;
    var i := 0;
    ghost var n, start := Count(len.value), r.rest;
    ghost var done: seq<i32> := [];
    PolyHashEmpty(1);
    PrependNothing(GetItems(k, n, start));
    while i < len.value
      invariant 0 <= i <= n
      invariant result == PolyHash(1, done)
      invariant GetItems(k, n, start) == Prepend(done, GetItems(k, n - i, r.rest))
    {
      PrependNext(k, done, n - i, r.rest);
      var x := ReadItem(k, r);
      if x.Err? { return Unknown; }
      PolyHashSnoc(1, done, x.value);
      done := done + [x.value];
      result := HashStep(result, x.value);
      i := i + 1;
    }
    PrependToNothing(done, r.rest);
    return Known(result);
  }

  function ArrayKind(code: byte): (ks: seq<Kind>)
    ensures forall k :: k in ks ==> ArrCode(k) == code
  {
    match code
    case 12 => [U8] case 13 => [I16] case 14 => [I32] case 15 => [I64] case 18 => [U16] case 19 => [Boolean]
    case _ => []
  }

  function PrimKind(code: byte): (ks: seq<Kind>)
    ensures forall k :: k in ks ==> Code(k) == code
  {
    match code
    case 1 => [U8] case 2 => [I16] case 3 => [I32] case 4 => [I64] case 5 => [F32] case 6 => [F64]
    case 7 => [U16] case 8 => [Boolean]
    case _ => []
  }

  /** `affinity_hash_marshaled` */
  function AffinityHash(bytes: Bytes): Hash {
    if bytes == [] || !KnownCode(bytes[0]) then Unknown
    else if bytes[0] == COMPLEX_OBJ then ObjectHash(bytes)
    else if bytes[0] == 9 then TextHash(bytes[1..])
    else if |ArrayKind(bytes[0])| > 0 then ArrayHash(ArrayKind(bytes[0])[0], bytes[1..])
    else if |PrimKind(bytes[0])| > 0 then ItemHash(PrimKind(bytes[0])[0], bytes[1..])
    else Unknown
  }

  function ItemHash(k: Kind, s: Bytes): Hash {
    match GetItem(k, s)
    case Bad(_) => Unknown
    case Got(x, _) => Known(x)
  }

  function TextHash(s: Bytes): Hash {
    match GetText(s)
    case Bad(f) => if f == Panic then Aborts else Unknown
    case Got(cs, _) => Known(PolyHash(0, cs))
  }

  /** The hash the object's header carries. */
  function ObjectHash(bytes: Bytes): Hash {
    BaseValues();
    if |bytes| < 12 then Unknown else Known(Signed(4, FromLE(bytes[8..12])))
  }

  // ------------------------------------------------------------------ from values

  /** Java's hash of a primitive: `Byte`, `Short`, `Integer`, `Character`, `Long`, `Boolean`, and for
      floats the raw bit pattern. */
  function PrimHash(k: Kind, n: int): (h: i32)
    requires InKind(k, n)
  {
    BaseValues();
    match k
    case U8 => Signed(1, n)
    case I16 | I32 | U16 => n
    case F32 => Signed(4, n)
    case I64 => LongHash(n)
    case F64 => LongHash(Signed(8, n))
    case Boolean => if n == 1 then 1231 else 1237
  }

  function PrimHashes(k: Kind, ns: seq<int>): (hs: seq<i32>)
    requires forall i :: 0 <= i < |ns| ==> InKind(k, ns[i])
    ensures |hs| == |ns| && forall i :: 0 <= i < |ns| ==> hs[i] == PrimHash(k, ns[i])
  {
    if ns == [] then [] else [PrimHash(k, ns[0])] + PrimHashes(k, ns[1..])
  }

  /** The hash a Java server derives from the key, where the client knows how to compute it. */
  function KeyHash(t: Ty, v: Val): Hash
    requires HasType(v, t)
    decreases v
  {
    match t
    case Prim(k) => Known(PrimHash(k, v.n))
    case Str => Known(PolyHash(0, v.chars))
    case Arr(k) => if k.F32? || k.F64? then Unknown else Known(PolyHash(1, PrimHashes(k, v.ns)))
    case Opt(e) => if v.Nothing? then Unknown else KeyHash(e, v.v)
    case Struct(_, fs) => Known(PolyHash(1, AsI8s(Concat(FieldParts(fs, v.vs)))))
    case EnumT | ObjArr(_) => Unknown
  }

  // ------------------------------------------------------------------ they agree

  lemma GetPutItem(k: Kind, n: int, rest: Bytes)
    requires InKind(k, n)
    ensures GetItem(k, PutPrim(k, n) + rest) == Got(PrimHash(k, n), rest)
  {
    BaseValues();
    match k {
      case U8 => GetPutI(1, Signed(1, n), rest);
      case I16 => GetPutI(2, n, rest);
      case U16 => GetPutU(2, n, rest);
      case I32 => GetPutI32(n, rest);
      case F32 => GetPutI32(Signed(4, n), rest);
      case I64 => GetPutI64(n, rest);
      case F64 => GetPutI64(Signed(8, n), rest);
      case Boolean => GetPutPrim(k, n, rest);
    }
  }

  lemma {:induction false} GetPutItems(k: Kind, ns: seq<int>, rest: Bytes)
    requires forall i :: 0 <= i < |ns| ==> InKind(k, ns[i])
    ensures GetItems(k, |ns|, PutPrims(k, ns) + rest) == Got(PrimHashes(k, ns), rest)
  {
    if ns == [] {
      assert [] + rest == rest;
    } else {
      var tail := PutPrims(k, ns[1..]) + rest;
      Assoc(PutPrim(k, ns[0]), PutPrims(k, ns[1..]), rest);
      GetPutItem(k, ns[0], tail);
      GetPutItems(k, ns[1..], rest);
    }
  }

  lemma ArrayOfPut(k: Kind, ns: seq<int>, rest: Bytes)
    requires |ns| < MAX_LEN && forall i :: 0 <= i < |ns| ==> InKind(k, ns[i])
    ensures ArrayHash(k, PutI32(|ns|) + PutPrims(k, ns) + rest) == Known(PolyHash(1, PrimHashes(k, ns)))
  {
    Assoc(PutI32(|ns|), PutPrims(k, ns), rest);
    GetPutI32(|ns|, PutPrims(k, ns) + rest);
    GetPutItems(k, ns, rest);
  }

  lemma StructHashBytes(id: i32, fs: seq<Field>, parts: seq<Bytes>, rest: Bytes)
    requires |parts| == |fs|
    ensures var w := WriteStruct(id, fs, parts) + rest;
      |w| >= 12 && w[0] == COMPLEX_OBJ && w[8..12] == PutI32(PolyHash(1, AsI8s(Concat(parts))))
  {
    var hash := PolyHash(1, AsI8s(Concat(parts)));
    var header := Header(id, hash, SchemaId(fs), |Concat(parts)|, 8 * |fs|);
    HashSlice(id, hash, SchemaId(fs), |Concat(parts)|, 8 * |fs|);
    var body := Concat(parts) + Footer(FieldIds(fs), parts, 0);
    SliceLeft(header, body, 8, PutI32(hash));
    SliceLeft(header + body, rest, 8, PutI32(hash));
  }

  lemma HashSlice(id: i32, hash: i32, schemaId: i32, bodyLen: nat, footerLen: nat)
    ensures var h := Header(id, hash, schemaId, bodyLen, footerLen);
      SliceIs(h, 8, PutI32(hash)) && h[0] == COMPLEX_OBJ
  {
  }

  lemma FromPut(v: i32)
    ensures Base(4) == 0x1_0000_0000 && Signed(4, FromLE(PutI32(v))) == v
  {
    BaseValues();
    GetPutI32(v, []);
    assert PutI32(v) + [] == PutI32(v);
    assert PutI32(v)[..4] == PutI32(v);
  }

  lemma Behind(code: byte, s: Bytes, rest: Bytes)
    ensures ([code] + s + rest)[0] == code && ([code] + s + rest)[1..] == s + rest
  {
  }

  lemma Unhashed(code: byte, s: Bytes, rest: Bytes)
    requires code == 28 || code == 23 || code == NULL || code == 16 || code == 17
    ensures AffinityHash([code] + s + rest) == Unknown
  {
    Behind(code, s, rest);
  }

  lemma PrimHashed(k: Kind, n: int, rest: Bytes)
    requires InKind(k, n)
    ensures AffinityHash([Code(k)] + PutPrim(k, n) + rest) == Known(PrimHash(k, n))
  {
    Behind(Code(k), PutPrim(k, n), rest);
    GetPutItem(k, n, rest);
    assert PrimKind(Code(k)) == [k];
  }

  lemma TextHashed(cs: seq<Scalar>, rest: Bytes)
    requires |Encode(cs)| < MAX_LEN
    ensures AffinityHash([9] + (PutI32(|Encode(cs)|) + Encode(cs)) + rest) == Known(PolyHash(0, cs))
  {
    Behind(9, PutI32(|Encode(cs)|) + Encode(cs), rest);
    GetPutText(cs, rest);
  }

  lemma ArrayDispatch(k: Kind, s: Bytes, rest: Bytes)
    requires !k.F32? && !k.F64?
    ensures AffinityHash([ArrCode(k)] + s + rest) == ArrayHash(k, s + rest)
  {
    Behind(ArrCode(k), s, rest);
    assert ArrayKind(ArrCode(k)) == [k];
  }

  lemma ArrayHashed(k: Kind, ns: seq<int>, rest: Bytes)
    requires |ns| < MAX_LEN && forall i :: 0 <= i < |ns| ==> InKind(k, ns[i])
    ensures AffinityHash([ArrCode(k)] + (PutI32(|ns|) + PutPrims(k, ns)) + rest)
         == if k.F32? || k.F64? then Unknown else Known(PolyHash(1, PrimHashes(k, ns)))
  {
    var s := PutI32(|ns|) + PutPrims(k, ns);
    if k.F32? || k.F64? {
      Unhashed(ArrCode(k), s, rest);
    } else {
      ArrayDispatch(k, s, rest);
      ArrayOfPut(k, ns, rest);
    }
  }

  lemma StructHashed(id: i32, fs: seq<Field>, parts: seq<Bytes>, rest: Bytes)
    requires |parts| == |fs|
    ensures AffinityHash(WriteStruct(id, fs, parts) + rest) == Known(PolyHash(1, AsI8s(Concat(parts))))
  {
    StructHashBytes(id, fs, parts, rest);
    FromPut(PolyHash(1, AsI8s(Concat(parts))));
    assert AffinityHash(WriteStruct(id, fs, parts) + rest) == ObjectHash(WriteStruct(id, fs, parts) + rest);
  }

  /** Hashing commutes with marshalling, for every key of every type and whatever follows the key. */
  lemma {:induction false} HashOfMarshalled(t: Ty, v: Val, rest: Bytes)
    requires HasType(v, t)
    ensures AffinityHash(Write(t, v) + rest) == KeyHash(t, v)
    decreases v
  {
    match t
    case Prim(k) => PrimHashed(k, v.n, rest);
    case EnumT => Unhashed(28, PutI32(v.typeId) + PutI32(v.ordinal), rest);
    case Str => TextHashed(v.chars, rest);
    case Arr(k) => ArrayHashed(k, v.ns, rest);
    case ObjArr(e) => Unhashed(23, PutI32(-1) + (PutI32(|v.items|) + WriteItems(e, v.items)), rest);
    case Opt(e) =>
      if v.Just? {
        HashOfMarshalled(e, v.v, rest);
      } else {
        Unhashed(NULL, [], rest);
        assert [NULL] + [] == [NULL];
      }
    case Struct(id, fs) => StructHashed(id, fs, FieldParts(fs, v.vs), rest);
  }

  lemma HashAlone(t: Ty, v: Val)
    requires HasType(v, t)
    ensures AffinityHash(Write(t, v)) == KeyHash(t, v)
  {
    HashOfMarshalled(t, v, []);
    assert Write(t, v) + [] == Write(t, v);
  }

  lemma BytesKeyHash(data: Bytes)
    requires |data| < MAX_LEN
    ensures HasType(Nums(data), Arr(U8)) && KeyHash(Arr(U8), Nums(data)) == Known(PolyHash(1, AsI8s(data)))
  {
    BaseValues();
    assert PrimHashes(U8, data) == AsI8s(data);
  }

  /** For byte arrays this is `bytes_to_java_hashcode` of the array. */
  method MarshalledBytesHash(data: Bytes) returns (h: i32)
    requires |data| < MAX_LEN
    ensures HasType(Nums(data), Arr(U8))
    ensures AffinityHash(Write(Arr(U8), Nums(data))) == Known(h)
    ensures h == PolyHash(1, AsI8s(data))
  {
    h := BytesToJavaHashcode(data);
    BytesKeyHash(data);
    HashAlone(Arr(U8), Nums(data));
  }
}
