/** The typed binary format: what `WritableType::write` emits and `ReadableType::read` accepts, for
    primitives, enums, strings, primitive arrays, `Vec<Option<T>>`, `Option<T>` and structs with a
    derived `IgniteObj`. */
module Codec {
  import opened Wire
  import opened Bits
  import opened Utf8
  import opened JavaHash

  // ------------------------------------------------------------------ types and values

  datatype Kind = U8 | U16 | I16 | I32 | I64 | F32 | F64 | Boolean

  /** `ObjArr(T)` is `Vec<Option<T>>`; `Struct` is a derived object with its type id. */
  datatype Ty = Prim(k: Kind) | EnumT | Str | Arr(k: Kind) | ObjArr(elem: Ty) | Opt(inner: Ty)
              | Struct(typeId: i32, fields: seq<Field>)
  datatype Field = Field(name: seq<Scalar>, ty: Ty)

  /** Floats are their bit patterns, booleans 0 and 1.  `Nothing` and `Just` are `None` and `Some`. */
  datatype Val = Num(n: int) | EnumV(typeId: i32, ordinal: i32) | Text(chars: seq<Scalar>) | Nums(ns: seq<int>)
               | Objs(items: seq<Val>) | Nothing | Just(v: Val) | Record(vs: seq<Val>)

  const MAX_LEN := 0x8000_0000
  const NULL: byte := 101
  const WRAPPED: byte := 27
  const COMPLEX_OBJ: byte := 103
  const HEADER_LEN := 24

  function Width(k: Kind): (w: nat)
    ensures 1 <= w <= 8
  {
    match k
    case U8 | Boolean => 1
    case U16 | I16 => 2
    case I32 | F32 => 4
    case I64 | F64 => 8
  }

  function Code(k: Kind): byte {
    match k
    case U8 => 1 case I16 => 2 case I32 => 3 case I64 => 4 case F32 => 5 case F64 => 6 case U16 => 7 case Boolean => 8
  }

  function ArrCode(k: Kind): byte {
    match k
    case U8 => 12 case I16 => 13 case I32 => 14 case I64 => 15 case F32 => 16 case F64 => 17 case U16 => 18
    case Boolean => 19
  }

  /** `TypeCode::try_from` succeeds. */
  predicate KnownCode(b: byte) {
    1 <= b <= 25 || 27 <= b <= 38 || 101 <= b <= 103 || b == 253 || b == 254
  }

  predicate IsSigned(k: Kind) {
    k.I16? || k.I32? || k.I64?
  }

  predicate InKind(k: Kind, n: int) {
    if IsSigned(k) then Fits(Width(k), n)
    else 0 <= n < Base(Width(k)) && (k.Boolean? ==> n <= 1)
  }

  predicate HasType(v: Val, t: Ty)
    decreases v
  {
    match t
    case Prim(k) => v.Num? && InKind(k, v.n)
    case EnumT => v.EnumV?
    case Str => v.Text? && |Encode(v.chars)| < MAX_LEN
    case Arr(k) => v.Nums? && |v.ns| < MAX_LEN && forall i :: 0 <= i < |v.ns| ==> InKind(k, v.ns[i])
    case ObjArr(e) => v.Objs? && |v.items| < MAX_LEN && forall i :: 0 <= i < |v.items| ==> HasType(v.items[i], Opt(e))
    case Opt(e) => v.Nothing? || (v.Just? && HasType(v.v, e))
    case Struct(_, fs) => v.Record? && |v.vs| == |fs| && forall i :: 0 <= i < |fs| ==> HasType(v.vs[i], fs[i].ty)
  }

  predicate AllTyped(vs: seq<Val>, fs: seq<Field>) {
    |vs| == |fs| && forall i :: 0 <= i < |fs| ==> HasType(vs[i], fs[i].ty)
  }

  // ------------------------------------------------------------------ writing

  function PutPrim(k: Kind, n: int): (s: Bytes)
    requires InKind(k, n)
    ensures |s| == Width(k)
  {
    if IsSigned(k) then PutI(Width(k), n) else PutU(Width(k), n)
  }

  /** `$size * len` */
  function ArrayBytes(k: Kind, n: nat): nat {
    match k
    case U8 | Boolean => n
    case U16 | I16 => 2 * n
    case I32 | F32 => 4 * n
    case I64 | F64 => 8 * n
  }

  function PutPrims(k: Kind, ns: seq<int>): (s: Bytes)
    requires forall i :: 0 <= i < |ns| ==> InKind(k, ns[i])
    ensures |s| == ArrayBytes(k, |ns|)
  {
    if ns == [] then [] else PutPrim(k, ns[0]) + PutPrims(k, ns[1..])
  }

  /** The id of each field, a hash of its name. */
  function FieldIds(fs: seq<Field>): (ids: seq<i32>)
    ensures |ids| == |fs| && forall i :: 0 <= i < |fs| ==> ids[i] == PolyHash(0, fs[i].name)
  {
    if fs == [] then [] else [PolyHash(0, fs[0].name)] + FieldIds(fs[1..])
  }

  /** One footer entry per field: field id and the offset of the field's bytes from the object's start;
      `at` bytes of fields come before the first part. */
  function Footer(ids: seq<i32>, parts: seq<Bytes>, at: nat): (s: Bytes)
    requires |parts| == |ids|
    ensures |s| == 8 * |ids|
  {
    if ids == [] then [] else FooterEntry(ids[0], at) + Footer(ids[1..], parts[1..], at + |parts[0]|)
  }

  function FooterEntry(id: i32, at: nat): (s: Bytes)
    ensures |s| == 8
  {
    PutI32(id) + PutI32(Wrap32(HEADER_LEN + at))
  }

  /** The FNV-1 step of `get_schema_id` over one byte of a field hash. */
  function Fnv(acc: i32, b: nat): i32
    requires b < 256
  {
    BaseValues();
    Wrap32(Xor(Unsigned(4, acc), b) * 0x0100_0193)
  }

  function FnvAll(acc: i32, bytes: Bytes): i32
    decreases |bytes|
  {
    if bytes == [] then acc else FnvAll(Fnv(acc, bytes[0]), bytes[1..])
  }

  /** `get_schema_id`: the four bytes of each field hash, lowest first. */
  function SchemaId(fs: seq<Field>): i32 {
    if fs == [] then -0x7EE3_623B
    else
      BaseValues();
      var h := Unsigned(4, PolyHash(0, fs[|fs| - 1].name));
      FnvAll(SchemaId(fs[..|fs| - 1]), [h % 256, h / 0x100 % 256, h / 0x1_0000 % 256, h / 0x100_0000])
  }

  /** Type code, version 1, flags USER_TYPE and HAS_SCHEMA, type id, hash of the field bytes, total
      length, schema id, footer offset.  `as i32` wraps. */
  function Header(typeId: i32, hash: i32, schemaId: i32, bodyLen: nat, footerLen: nat): (s: Bytes)
    ensures |s| == HEADER_LEN
  {
    [COMPLEX_OBJ, 1] + PutU(2, 3) + PutI32(typeId) + PutI32(hash) + PutI32(Wrap32(HEADER_LEN + bodyLen + footerLen))
      + PutI32(schemaId) + PutI32(Wrap32(HEADER_LEN + bodyLen))
  }

  function Write(t: Ty, v: Val): (s: Bytes)
    requires HasType(v, t)
    decreases v, 1
  {
    match t
    case Prim(k) => [Code(k)] + PutPrim(k, v.n)
    case EnumT => [28] + (PutI32(v.typeId) + PutI32(v.ordinal))
    case Str => [9] + (PutI32(|Encode(v.chars)|) + Encode(v.chars))
    case Arr(k) => [ArrCode(k)] + (PutI32(|v.ns|) + PutPrims(k, v.ns))
    case ObjArr(e) => [23] + (PutI32(-1) + (PutI32(|v.items|) + WriteItems(e, v.items)))
    case Opt(e) => if v.Nothing? then [NULL] else Write(e, v.v)
    case Struct(id, fs) => WriteStruct(id, fs, FieldParts(fs, v.vs))
  }

  /** An object from the encodings of its fields. */
  function WriteStruct(id: i32, fs: seq<Field>, parts: seq<Bytes>): (s: Bytes)
    requires |parts| == |fs|
    ensures |s| == HEADER_LEN + |Concat(parts)| + 8 * |fs|
  {
    Header(id, PolyHash(1, AsI8s(Concat(parts))), SchemaId(fs), |Concat(parts)|, 8 * |fs|)
      + (Concat(parts) + Footer(FieldIds(fs), parts, 0))
  }

  function WriteItems(e: Ty, items: seq<Val>): (s: Bytes)
    requires forall i :: 0 <= i < |items| ==> HasType(items[i], Opt(e))
    decreases items, 0
  {
    if items == [] then [] else Write(Opt(e), items[0]) + WriteItems(e, items[1..])
  }

  function FieldParts(fs: seq<Field>, vs: seq<Val>): (parts: seq<Bytes>)
    requires AllTyped(vs, fs)
    ensures |parts| == |fs|
    decreases vs, 0
  {
    if fs == [] then [] else [Write(fs[0].ty, vs[0])] + FieldParts(fs[1..], vs[1..])
  }

  /** What a reader finds in the first 24 bytes of an object: code 103, version 1, flags 3, then six integers. */
  predicate HeaderSays(w: Bytes, typeId: i32, hash: i32, total: i32, schemaId: i32, footerAt: i32) {
    && SliceIs(w, 0, [103, 1, 3, 0])
    && SliceIs(w, 4, PutI32(typeId))
    && SliceIs(w, 8, PutI32(hash))
    && SliceIs(w, 12, PutI32(total))
    && SliceIs(w, 16, PutI32(schemaId))
    && SliceIs(w, 20, PutI32(footerAt))
  }

  /** Where the bytes of field i begin, and where its footer entry does. */
  function FieldPlace(parts: seq<Bytes>, i: nat): int
    requires i <= |parts|
  {
    HEADER_LEN + |Concat(parts[..i])|
  }

  function FooterPlace(parts: seq<Bytes>, i: nat): int {
    HEADER_LEN + |Concat(parts)| + 8 * i
  }

  /** At position `entry` of w stand the id and the offset `at`, and at that offset stands `part`. */
  predicate EntryPointsAt(w: Bytes, entry: int, id: i32, at: int, part: Bytes) {
    0 <= at < MAX_LEN && SliceIs(w, entry, PutI32(id) + PutI32(at)) && SliceIs(w, at, part)
  }

  // ------------------------------------------------------------------ size()

  function Size(t: Ty, v: Val): nat
    requires HasType(v, t)
    decreases v, 1
  {
    match t
    case Prim(k) => Width(k) + 1
    case EnumT => 8 + 1
    case Str => |Encode(v.chars)| + 1 + 4
    case Arr(k) => ArrayBytes(k, |v.ns|) + 4 + 1
    case ObjArr(e) => SizeItems(e, v.items) + 1 + 4 + 4
    case Opt(e) => if v.Nothing? then 1 else Size(e, v.v)
    case Struct(_, fs) => HEADER_LEN + SizeFields(fs, v.vs)
  }

  function SizeItems(e: Ty, items: seq<Val>): nat
    requires forall i :: 0 <= i < |items| ==> HasType(items[i], Opt(e))
    decreases items, 0
  {
    if items == [] then 0 else Size(Opt(e), items[0]) + SizeItems(e, items[1..])
  }

  function SizeFields(fs: seq<Field>, vs: seq<Val>): nat
    requires AllTyped(vs, fs)
    decreases vs, 0
  {
    if fs == [] then 0 else Size(fs[0].ty, vs[0]) + 4 + 4 + SizeFields(fs[1..], vs[1..])
  }

  // ------------------------------------------------------------------ reading

  function GetPrim(k: Kind, s: Bytes): (p: Parse<int>)
    ensures p.Got? ==> |p.rest| == |s| - Width(k) && InKind(k, p.value)
  {
    if k.Boolean? then
      BaseValues();
      var (b, rest) :- GetBool(s);
      Got(if b then 1 else 0, rest)
    else if IsSigned(k) then GetI(Width(k), s)
    else
      var (n, rest) :- GetU(Width(k), s);
      Got(n, rest)
  }

  function GetPrims(k: Kind, n: nat, s: Bytes): (p: Parse<seq<int>>)
    ensures p.Got? ==> |p.rest| <= |s| && |p.value| == n
  {
    if n == 0 then Got([], s)
    else
      var (x, rest) :- GetPrim(k, s);
      var (xs, rest') :- GetPrims(k, n - 1, rest);
      Got([x] + xs, rest')
  }

  function GetText(s: Bytes): (p: Parse<seq<Scalar>>)
    ensures p.Got? ==> |p.rest| < |s|
  {
    var (len, rest) :- GetI32(s);
    if len < 0 then Bad(Panic)
    else if |rest| < len then Bad(EndOfInput)
    else
      match Decode(rest[..len])
      case Err(f) => Bad(f)
      case Ok(cs) => Got(cs, rest[len..])
  }

  /** n bytes whose content the reader ignores. */
  function Skip(n: nat, s: Bytes): (p: Parse<()>)
    ensures p.Got? ==> |p.rest| == |s| - n
  {
    if |s| < n then Bad(EndOfInput) else Got((), s[n..])
  }

  /** The flags the derived reader insists on: a schema, no compact footer, four-byte offsets. */
  predicate GoodFlags(flags: nat) {
    And(flags, 0x02) != 0 && And(flags, 0x20) == 0 && And(flags, 0x08) == 0 && And(flags, 0x10) == 0
  }

  /** The object header after its type code: version, flags, type id, then four ignored integers. */
  function GetHeader(typeId: i32, s: Bytes): (p: Parse<()>)
    ensures p.Got? ==> |p.rest| == |s| - 23
  {
    var (_, s1) :- Skip(1, s);
    var (flags, s2) :- GetU(2, s1);
    if !GoodFlags(flags) then Bad(BadFormat)
    else
      var (id, s3) :- GetI32(s2);
      if id != typeId then Bad(BadFormat) else Skip(16, s3)
  }

  /** `T::read`: the result `Option<T>` is Nothing or Just. */
  function Read(t: Ty, s: Bytes): (p: Parse<Val>)
    ensures p.Got? ==> |p.rest| < |s|
    decreases |s|, 2, t
  {
    if s == [] then Bad(EndOfInput)
    else if !KnownCode(s[0]) then Bad(BadTypeCode)
    else if s[0] == NULL then Got(Nothing, s[1..])
    else if s[0] == WRAPPED then
      var (_, rest) :- Skip(4, s[1..]);
      var (v, rest') :- Read(t, rest);
      var (_, rest'') :- Skip(4, rest');
      Got(v, rest'')
    else ReadUnwrapped(t, s[0], s[1..])
  }

  function ReadUnwrapped(t: Ty, code: byte, s: Bytes): (p: Parse<Val>)
    ensures p.Got? ==> |p.rest| <= |s|
    decreases |s|, 1, t
  {
    if t.Opt? then
      var (v, rest) :- ReadUnwrapped(t.inner, code, s);
      Got(if v == Nothing then Nothing else Just(v), rest)
    else if code == NULL then Got(Nothing, s)
    else
      match t
      case Prim(k) =>
        var (n, rest) :- GetPrim(k, s);
        Got(Just(Num(n)), rest)
      case EnumT =>
        var (id, rest) :- GetI32(s);
        var (ord, rest') :- GetI32(rest);
        Got(Just(EnumV(id, ord)), rest')
      case Str =>
        var (cs, rest) :- GetText(s);
        Got(Just(Text(cs)), rest)
      case Arr(k) =>
        var (len, rest) :- GetI32(s);
        if len < 0 then Bad(Panic)
        else
          var (ns, rest') :- GetPrims(k, len, rest);
          Got(Just(Nums(ns)), rest')
      case ObjArr(e) =>
        if code == 23 then
          var (_, rest) :- Skip(4, s);
          var (len, rest') :- GetI32(rest);
          ReadObjs(e, len, rest')
        else if code == 24 then
          var (len, rest) :- GetI32(s);
          var (_, rest') :- Skip(1, rest);
          ReadObjs(e, len, rest')
        else Bad(BadFormat)
      case Struct(id, fs) =>
        var (_, rest) :- GetHeader(id, s);
        var (vs, rest') :- ReadFields(fs, rest);
        var (_, rest'') :- Skip(8 * |fs|, rest');
        Got(Just(Record(vs)), rest'')
  }

  function ReadObjs(e: Ty, len: i32, s: Bytes): (p: Parse<Val>)
    ensures p.Got? ==> |p.rest| <= |s|
    decreases |s|, 4
  {
    if len < 0 then Bad(Panic)
    else
      var (items, rest) :- ReadItems(e, len, s);
      Got(Just(Objs(items)), rest)
  }

  function ReadItems(e: Ty, n: nat, s: Bytes): (p: Parse<seq<Val>>)
    ensures p.Got? ==> |p.rest| <= |s|
    decreases |s|, 3, n
  {
    if n == 0 then Got([], s)
    else
      var (item, rest) :- Read(e, s);
      var (items, rest') :- ReadItems(e, n - 1, rest);
      Got([item] + items, rest')
  }

  /** The derived reader unwraps every field. */
  function ReadFields(fs: seq<Field>, s: Bytes): (p: Parse<seq<Val>>)
    ensures p.Got? ==> |p.rest| <= |s|
    decreases |s|, 3, |fs|
  {
    if fs == [] then Got([], s)
    else
      var (v, rest) :- Read(fs[0].ty, s);
      if !v.Just? then Bad(Panic)
      else
        var (vs, rest') :- ReadFields(fs[1..], rest);
        Got([v.v] + vs, rest')
  }
}
