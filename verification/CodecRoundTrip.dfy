/** What reading gives back of what was written, for every well-typed value. */
module CodecRoundTrip {
  import opened Wire
  import opened Bits
  import opened Utf8
  import opened JavaHash
  import opened Codec
  import opened SchemaHash

  // ------------------------------------------------------------------ size() is the number of bytes

  lemma {:induction false} SizeIsLength(t: Ty, v: Val)
    requires HasType(v, t)
    ensures Size(t, v) == |Write(t, v)|
    decreases v, 1
  {
    match t
    case Prim(_) =>
    case EnumT =>
    case Str =>
    case Arr(_) =>
    case ObjArr(e) => SizeItemsIsLength(e, v.items);
    case Opt(e) => if v.Just? { SizeIsLength(e, v.v); }
    case Struct(_, fs) => SizeFieldsIsLength(fs, v.vs);
  }

  lemma {:induction false} SizeItemsIsLength(e: Ty, items: seq<Val>)
    requires forall i :: 0 <= i < |items| ==> HasType(items[i], Opt(e))
    ensures SizeItems(e, items) == |WriteItems(e, items)|
    decreases items, 0
  {
    if items != [] {
      SizeIsLength(Opt(e), items[0]);
      SizeItemsIsLength(e, items[1..]);
    }
  }

  lemma {:induction false} SizeFieldsIsLength(fs: seq<Field>, vs: seq<Val>)
    requires AllTyped(vs, fs)
    ensures SizeFields(fs, vs) == |Concat(FieldParts(fs, vs))| + 8 * |fs|
    decreases vs, 0
  {
    if fs != [] {
      SizeIsLength(fs[0].ty, vs[0]);
      SizeFieldsIsLength(fs[1..], vs[1..]);
      ConcatCons(Write(fs[0].ty, vs[0]), FieldParts(fs[1..], vs[1..]));
    }
  }

  lemma ConcatCons(part: Bytes, parts: seq<Bytes>)
    ensures Concat([part] + parts) == part + Concat(parts)
  {
  }

  lemma ConcatConsRest(part: Bytes, parts: seq<Bytes>, rest: Bytes)
    ensures Concat([part] + parts) + rest == part + (Concat(parts) + rest)
  {
  }

  // ------------------------------------------------------------------ what the reader can see

  /** v is written as the single null code. */
  predicate Null(v: Val) {
    v.Nothing? || (v.Just? && Null(v.v))
  }

  /** Decoding v runs into a struct field that is null, and `unwrap` panics. */
  predicate Unreadable(v: Val) {
    match v
    case Just(x) => Unreadable(x)
    case Objs(items) => exists i :: 0 <= i < |items| && Unreadable(items[i])
    case Record(vs) => exists i :: 0 <= i < |vs| && (Null(vs[i]) || Unreadable(vs[i]))
    case _ => false
  }

  /** v as it comes back: `Some(None)` is indistinguishable from `None`. */
  function Seen(v: Val): Val
    decreases v, 1
  {
    match v
    case Just(x) => if Null(x) then Nothing else Just(Seen(x))
    case Objs(items) => Objs(SeenAll(items))
    case Record(vs) => Record(SeenAll(vs))
    case _ => v
  }

  function SeenAll(vs: seq<Val>): (r: seq<Val>)
    ensures |r| == |vs| && forall i :: 0 <= i < |vs| ==> r[i] == Seen(vs[i])
    decreases vs, 0
  {
    if vs == [] then [] else [Seen(vs[0])] + SeenAll(vs[1..])
  }

  /** The exact outcome of reading back v with `rest` behind it. */
  function ReadBack(v: Val, rest: Bytes): Parse<Val> {
    if Unreadable(v) then Bad(Panic) else Got(Seen(Just(v)), rest)
  }

  lemma ReadBackNonNull(v: Val, rest: Bytes)
    requires !Null(v)
    ensures ReadBack(v, rest) == if Unreadable(v) then Bad(Panic) else Got(Just(Seen(v)), rest)
  {
  }

  // ------------------------------------------------------------------ primitives, strings, header

  lemma GetPutPrim(k: Kind, n: int, rest: Bytes)
    requires InKind(k, n)
    ensures GetPrim(k, PutPrim(k, n) + rest) == Got(n, rest)
  {
    BaseValues();
    if IsSigned(k) {
      GetPutI(Width(k), n, rest);
    } else {
      GetPutU(Width(k), n, rest);
      if k.Boolean? {
        assert PutU(1, n) == [n % 256] + [];
        assert ([n % 256] + [] + rest)[1..] == rest;
      }
    }
  }

  lemma {:induction false} GetPutPrims(k: Kind, ns: seq<int>, rest: Bytes)
    requires forall i :: 0 <= i < |ns| ==> InKind(k, ns[i])
    ensures GetPrims(k, |ns|, PutPrims(k, ns) + rest) == Got(ns, rest)
  {
    if ns == [] {
      assert [] + rest == rest;
    } else {
      var tail := PutPrims(k, ns[1..]) + rest;
      Assoc(PutPrim(k, ns[0]), PutPrims(k, ns[1..]), rest);
      GetPutPrim(k, ns[0], tail);
      GetPutPrims(k, ns[1..], rest);
      assert [ns[0]] + ns[1..] == ns;
    }
  }

  lemma GetPutText(cs: seq<Scalar>, rest: Bytes)
    requires |Encode(cs)| < MAX_LEN
    ensures GetText(PutI32(|Encode(cs)|) + Encode(cs) + rest) == Got(cs, rest)
  {
    var e := Encode(cs);
    assert PutI32(|e|) + e + rest == PutI32(|e|) + (e + rest);
    GetPutI32(|e|, e + rest);
    assert (e + rest)[..|e|] == e;
    assert (e + rest)[|e|..] == rest;
    DecodeOfEncode(cs);
  }

  lemma SkipPrefix(s: Bytes, rest: Bytes)
    ensures Skip(|s|, s + rest) == Got((), rest)
  {
    assert (s + rest)[|s|..] == rest;
  }

  lemma WrittenFlags()
    ensures GoodFlags(3)
  {
  }

  lemma GetPutHeader(id: i32, hash: i32, schemaId: i32, bodyLen: nat, footerLen: nat, rest: Bytes)
    ensures GetHeader(id, Header(id, hash, schemaId, bodyLen, footerLen)[1..] + rest) == Got((), rest)
  {
    var total, footerAt := Wrap32(HEADER_LEN + bodyLen + footerLen), Wrap32(HEADER_LEN + bodyLen);
    var ints := PutI32(hash) + PutI32(total) + PutI32(schemaId) + PutI32(footerAt);
    var s := Header(id, hash, schemaId, bodyLen, footerLen)[1..] + rest;
    assert s == [1] + (PutU(2, 3) + (PutI32(id) + (ints + rest)));
    SkipPrefix([1], PutU(2, 3) + (PutI32(id) + (ints + rest)));
    BaseValues();
    GetPutU(2, 3, PutI32(id) + (ints + rest));
    WrittenFlags();
    GetPutI32(id, ints + rest);
    SkipPrefix(ints, rest);
  }

  // ------------------------------------------------------------------ the round trip

  /** A non-null value is written under a known code that is neither null nor an envelope. */
  lemma {:induction false} LeadingCode(t: Ty, v: Val)
    requires HasType(v, t)
    ensures |Write(t, v)| > 0 && KnownCode(Write(t, v)[0]) && Write(t, v)[0] != WRAPPED
    ensures Null(v) <==> Write(t, v)[0] == NULL
    ensures Null(v) ==> Write(t, v) == [NULL]
    decreases v
  {
    match t
    case Opt(e) => if v.Just? { LeadingCode(e, v.v); }
    case Struct(id, fs) =>
    case _ =>
  }

  /** `read` of a value is `read_unwrapped` under its leading code. */
  lemma ReadIsUnwrapped(t: Ty, v: Val, rest: Bytes)
    requires HasType(v, t) && !Null(v)
    ensures |Write(t, v)| > 0
    ensures Read(t, Write(t, v) + rest) == ReadUnwrapped(t, Write(t, v)[0], Write(t, v)[1..] + rest)
  {
    LeadingCode(t, v);
    var w := Write(t, v);
    assert (w + rest)[0] == w[0] && (w + rest)[1..] == w[1..] + rest;
  }

  lemma {:induction false} ReadOfWrite(t: Ty, v: Val, rest: Bytes)
    requires HasType(v, t)
    ensures Read(t, Write(t, v) + rest) == ReadBack(v, rest)
    decreases v, 2
  {
    if Null(v) {
      LeadingCode(t, v);
      assert ([NULL] + rest)[1..] == rest;
      NullIsReadable(v);
    } else {
      ReadIsUnwrapped(t, v, rest);
      UnwrappedOfWrite(t, v, rest);
    }
  }

  lemma {:induction false} NullIsReadable(v: Val)
    requires Null(v)
    ensures !Unreadable(v)
  {
    if v.Just? { NullIsReadable(v.v); }
  }

  lemma {:induction false} UnwrappedOfWrite(t: Ty, v: Val, rest: Bytes)
    requires HasType(v, t) && !Null(v)
    ensures |Write(t, v)| > 0
    ensures ReadUnwrapped(t, Write(t, v)[0], Write(t, v)[1..] + rest) == ReadBack(v, rest)
    decreases v, 1
  {
    LeadingCode(t, v);
    match t
    case ObjArr(e) => ObjsOfWrite(e, v, rest);
    case Opt(e) =>
      UnwrappedOfWrite(e, v.v, rest);
      ReadBackNonNull(v, rest);
      ReadBackNonNull(v.v, rest);
    case Struct(id, fs) => StructOfWrite(id, fs, v, rest);
    case Prim(k) => PrimOfWrite(k, v, rest);
    case EnumT => EnumOfWrite(v, rest);
    case Str => TextOfWrite(v, rest);
    case Arr(k) => ArrayOfWrite(k, v, rest);
  }

  lemma PrimOfWrite(k: Kind, v: Val, rest: Bytes)
    requires HasType(v, Prim(k))
    ensures ReadUnwrapped(Prim(k), Code(k), Write(Prim(k), v)[1..] + rest) == ReadBack(v, rest)
  {
    ReadBackNonNull(v, rest);
    assert Write(Prim(k), v)[1..] == PutPrim(k, v.n);
    GetPutPrim(k, v.n, rest);
  }

  lemma EnumOfWrite(v: Val, rest: Bytes)
    requires HasType(v, EnumT)
    ensures ReadUnwrapped(EnumT, 28, Write(EnumT, v)[1..] + rest) == ReadBack(v, rest)
  {
    ReadBackNonNull(v, rest);
    assert Write(EnumT, v)[1..] + rest == PutI32(v.typeId) + (PutI32(v.ordinal) + rest);
    GetPutI32(v.typeId, PutI32(v.ordinal) + rest);
    GetPutI32(v.ordinal, rest);
  }

  lemma TextOfWrite(v: Val, rest: Bytes)
    requires HasType(v, Str)
    ensures ReadUnwrapped(Str, 9, Write(Str, v)[1..] + rest) == ReadBack(v, rest)
  {
    ReadBackNonNull(v, rest);
    assert Write(Str, v)[1..] == PutI32(|Encode(v.chars)|) + Encode(v.chars);
    GetPutText(v.chars, rest);
  }

  lemma ArrayOfWrite(k: Kind, v: Val, rest: Bytes)
    requires HasType(v, Arr(k))
    ensures ReadUnwrapped(Arr(k), ArrCode(k), Write(Arr(k), v)[1..] + rest) == ReadBack(v, rest)
  {
    ReadBackNonNull(v, rest);
    assert Write(Arr(k), v)[1..] == PutI32(|v.ns|) + PutPrims(k, v.ns);
    Assoc(PutI32(|v.ns|), PutPrims(k, v.ns), rest);
    GetPutI32(|v.ns|, PutPrims(k, v.ns) + rest);
    GetPutPrims(k, v.ns, rest);
  }

  lemma {:induction false} ObjsOfWrite(e: Ty, v: Val, rest: Bytes)
    requires HasType(v, ObjArr(e))
    ensures |Write(ObjArr(e), v)| > 0
    ensures ReadUnwrapped(ObjArr(e), 23, Write(ObjArr(e), v)[1..] + rest) == ReadBack(v, rest)
    decreases v, 0
  {
    var w := Write(ObjArr(e), v);
    var body := WriteItems(e, v.items);
    assert w[1..] + rest == PutI32(-1) + (PutI32(|v.items|) + (body + rest));
    SkipPrefix(PutI32(-1), PutI32(|v.items|) + (body + rest));
    GetPutI32(|v.items|, body + rest);
    ItemsOfWrite(e, v.items, rest);
    ReadBackNonNull(v, rest);
  }

  ghost predicate AnyUnreadable(items: seq<Val>) {
    exists i :: 0 <= i < |items| && Unreadable(items[i])
  }

  ghost function ItemsBack(items: seq<Val>, rest: Bytes): Parse<seq<Val>> {
    if AnyUnreadable(items) then Bad(Panic) else Got(SeenAll(items), rest)
  }

  lemma {:induction false} ItemsOfWrite(e: Ty, items: seq<Val>, rest: Bytes)
    requires forall i :: 0 <= i < |items| ==> HasType(items[i], Opt(e))
    ensures ReadItems(e, |items|, WriteItems(e, items) + rest) == ItemsBack(items, rest)
    decreases items, 0
  {
    if items == [] {
      assert [] + rest == rest;
    } else {
      Assoc(Write(Opt(e), items[0]), WriteItems(e, items[1..]), rest);
      ItemOfWrite(e, items[0], WriteItems(e, items[1..]) + rest);
      ItemsOfWrite(e, items[1..], rest);
      ItemsBackNext(items, rest);
    }
  }

  lemma ItemsBackNext(items: seq<Val>, rest: Bytes)
    requires items != []
    ensures ItemsBack(items, rest) ==
      if Unreadable(items[0]) then Bad(Panic)
      else
        match ItemsBack(items[1..], rest)
        case Bad(f) => Bad(f)
        case Got(seen, rest') => Got([Seen(items[0])] + seen, rest')
  {
    if i :| 0 <= i < |items| && Unreadable(items[i]) {
      if i > 0 { assert items[1..][i - 1] == items[i]; }
    }
  }

  /** An element of a `Vec<Option<T>>` is read with `T::read`. */
  lemma {:induction false} ItemOfWrite(e: Ty, item: Val, rest: Bytes)
    requires HasType(item, Opt(e))
    ensures Read(e, Write(Opt(e), item) + rest) == if Unreadable(item) then Bad(Panic) else Got(Seen(item), rest)
    decreases item, 3
  {
    if item.Just? {
      ReadOfWrite(e, item.v, rest);
    } else {
      assert ([NULL] + rest)[1..] == rest;
    }
  }

  lemma {:induction false} StructOfWrite(id: i32, fs: seq<Field>, v: Val, rest: Bytes)
    requires HasType(v, Struct(id, fs))
    ensures |Write(Struct(id, fs), v)| > 0
    ensures ReadUnwrapped(Struct(id, fs), COMPLEX_OBJ, Write(Struct(id, fs), v)[1..] + rest) == ReadBack(v, rest)
    decreases v, 0
  {
    var parts := FieldParts(fs, v.vs);
    StructBytes(id, fs, parts, rest);
    FieldsOfWrite(fs, v.vs, Footer(FieldIds(fs), parts, 0) + rest);
    SkipPrefix(Footer(FieldIds(fs), parts, 0), rest);
    ReadBackNonNull(v, rest);
  }

  lemma TailOfConcat(a: Bytes, b: Bytes, c: Bytes, d: Bytes)
    requires |a| > 0
    ensures (a + (b + c))[1..] + d == a[1..] + (b + (c + d))
  {
  }

  /** Behind the header come the fields, then the footer. */
  lemma StructBytes(id: i32, fs: seq<Field>, parts: seq<Bytes>, rest: Bytes)
    requires |parts| == |fs|
    ensures GetHeader(id, WriteStruct(id, fs, parts)[1..] + rest)
      == Got((), Concat(parts) + (Footer(FieldIds(fs), parts, 0) + rest))
  {
    var fields, footer := Concat(parts), Footer(FieldIds(fs), parts, 0);
    var hash, schemaId := PolyHash(1, AsI8s(fields)), SchemaId(fs);
    TailOfConcat(Header(id, hash, schemaId, |fields|, 8 * |fs|), fields, footer, rest);
    GetPutHeader(id, hash, schemaId, |fields|, 8 * |fs|, fields + (footer + rest));
  }

  lemma {:induction false} FieldsOfWrite(fs: seq<Field>, vs: seq<Val>, rest: Bytes)
    requires AllTyped(vs, fs)
    ensures ReadFields(fs, Concat(FieldParts(fs, vs)) + rest) ==
      if Unreadable(Record(vs)) then Bad(Panic) else Got(SeenAll(vs), rest)
    decreases vs, 0
  {
    if fs == [] {
      assert [] + rest == rest;
    } else {
      var tail := Concat(FieldParts(fs[1..], vs[1..])) + rest;
      ConcatConsRest(Write(fs[0].ty, vs[0]), FieldParts(fs[1..], vs[1..]), rest);
      ReadOfWrite(fs[0].ty, vs[0], tail);
      FieldsOfWrite(fs[1..], vs[1..], rest);
      SplitRecord(vs);
      FieldsStep(fs, vs, tail, rest);
    }
  }

  /** One turn of the field reader, given what it and the turns after it read. */
  lemma FieldsStep(fs: seq<Field>, vs: seq<Val>, tail: Bytes, rest: Bytes)
    requires AllTyped(vs, fs) && fs != []
    requires Read(fs[0].ty, Write(fs[0].ty, vs[0]) + tail) == ReadBack(vs[0], tail)
    requires ReadFields(fs[1..], tail) ==
      if Unreadable(Record(vs[1..])) then Bad(Panic) else Got(SeenAll(vs[1..]), rest)
    ensures ReadFields(fs, Write(fs[0].ty, vs[0]) + tail) ==
      if Null(vs[0]) || Unreadable(vs[0]) || Unreadable(Record(vs[1..])) then Bad(Panic) else Got(SeenAll(vs), rest)
  {
    if !Null(vs[0]) { ReadBackNonNull(vs[0], tail); }
  }

  lemma SplitRecord(vs: seq<Val>)
    requires vs != []
    ensures Unreadable(Record(vs)) <==> Null(vs[0]) || Unreadable(vs[0]) || Unreadable(Record(vs[1..]))
  {
  }

  // ------------------------------------------------------------------ exactly which values survive

  /** No absent option stands where the reader expects a value: at the top, directly inside another
      option, or in a struct field.  Absent elements of a `Vec<Option<T>>` are fine. */
  predicate Plain(v: Val) {
    match v
    case Nothing => false
    case Just(x) => Plain(x)
    case Objs(items) => forall i :: 0 <= i < |items| ==> items[i].Nothing? || Plain(items[i])
    case Record(vs) => forall i :: 0 <= i < |vs| ==> Plain(vs[i])
    case _ => true
  }

  lemma {:induction false} PlainIsSeenWhole(v: Val)
    ensures Plain(v) <==> !Null(v) && !Unreadable(v) && Seen(v) == v
  {
    match v
    case Just(x) => PlainIsSeenWhole(x);
    case Objs(items) =>
      forall i | 0 <= i < |items|
        ensures (items[i].Nothing? || Plain(items[i])) <==> !Unreadable(items[i]) && Seen(items[i]) == items[i]
      {
        PlainIsSeenWhole(items[i]);
        if Null(items[i]) { NullIsReadable(items[i]); }
      }
    case Record(vs) =>
      forall i | 0 <= i < |vs|
        ensures Plain(vs[i]) <==> !Null(vs[i]) && !Unreadable(vs[i]) && Seen(vs[i]) == vs[i]
      {
        PlainIsSeenWhole(vs[i]);
      }
    case _ =>
  }

  lemma ReadBackExactly(v: Val, rest: Bytes)
    ensures ReadBack(v, rest) == Got(Just(v), rest) <==> Plain(v)
  {
    PlainIsSeenWhole(v);
    if Null(v) { NullIsReadable(v); }
  }

  /** Decoding the bytes of v followed by any suffix yields v and leaves the suffix, if and only if v is
      plain. */
  lemma RoundTripExactly(t: Ty, v: Val, rest: Bytes)
    requires HasType(v, t)
    ensures Read(t, Write(t, v) + rest) == Got(Just(v), rest) <==> Plain(v)
  {
    ReadOfWrite(t, v, rest);
    ReadBackExactly(v, rest);
  }

  /** The failing family: a struct with an absent optional field cannot be read back at all. */
  lemma NullFieldPanics(id: i32, fs: seq<Field>, v: Val, i: nat, rest: Bytes)
    requires HasType(v, Struct(id, fs)) && i < |fs| && Null(v.vs[i])
    ensures Read(Struct(id, fs), Write(Struct(id, fs), v) + rest) == Bad(Panic)
  {
    ReadOfWrite(Struct(id, fs), v, rest);
  }

  // ------------------------------------------------------------------ envelopes

  /** Bytes inside WrappedData envelopes, outermost first: code, ignored length, payload, ignored offset. */
  function Envelope(layers: seq<(i32, i32)>, payload: Bytes): Bytes {
    if layers == [] then payload
    else [WRAPPED] + (PutI32(layers[0].0) + (Envelope(layers[1..], payload) + PutI32(layers[0].1)))
  }

  /** One envelope: the payload's parse decides, then the offset is skipped. */
  lemma ReadEnvelope(t: Ty, len: i32, off: i32, inner: Bytes, rest: Bytes)
    requires var p := Read(t, inner + (PutI32(off) + rest)); p.Got? ==> p.rest == PutI32(off) + rest
    ensures Read(t, [WRAPPED] + (PutI32(len) + (inner + PutI32(off))) + rest) ==
      match Read(t, inner + (PutI32(off) + rest))
      case Got(v, _) => Got(v, rest)
      case Bad(f) => Bad(f)
  {
    var tail := inner + (PutI32(off) + rest);
    var s := [WRAPPED] + (PutI32(len) + (inner + PutI32(off))) + rest;
    assert s == [WRAPPED] + (PutI32(len) + tail);
    assert s[1..] == PutI32(len) + tail;
    SkipPrefix(PutI32(len), tail);
    SkipPrefix(PutI32(off), rest);
  }

  /** Any number of envelopes around an encoding leaves what is read unchanged. */
  lemma {:induction false} EnvelopesAreTransparent(t: Ty, v: Val, layers: seq<(i32, i32)>, rest: Bytes)
    requires HasType(v, t)
    ensures Read(t, Envelope(layers, Write(t, v)) + rest) == ReadBack(v, rest)
  {
    if layers == [] {
      ReadOfWrite(t, v, rest);
    } else {
      var off := layers[0].1;
      EnvelopesAreTransparent(t, v, layers[1..], PutI32(off) + rest);
      ReadEnvelope(t, layers[0].0, off, Envelope(layers[1..], Write(t, v)), rest);
    }
  }

  // ------------------------------------------------------------------ layout of a derived object

  lemma {:induction false} FooterSlice(ids: seq<i32>, parts: seq<Bytes>, at: nat, i: nat)
    requires |parts| == |ids| && i < |ids|
    ensures SliceIs(Footer(ids, parts, at), 8 * i, FooterEntry(ids[i], at + |Concat(parts[..i])|))
  {
    var head, tail := FooterEntry(ids[0], at), Footer(ids[1..], parts[1..], at + |parts[0]|);
    if i == 0 {
      SliceSelf(head);
      SliceLeft(head, tail, 0, head);
    } else {
      FooterSlice(ids[1..], parts[1..], at + |parts[0]|, i - 1);
      assert parts[..i][1..] == parts[1..][..i - 1];
      SliceRight(head, tail, 8 * (i - 1), FooterEntry(ids[i], at + |Concat(parts[..i])|));
    }
  }

  lemma HeaderSlices(id: i32, hash: i32, schemaId: i32, bodyLen: nat, footerLen: nat)
    requires 24 + bodyLen + footerLen < MAX_LEN
    ensures HeaderSays(Header(id, hash, schemaId, bodyLen, footerLen), id, hash, 24 + bodyLen + footerLen, schemaId,
        24 + bodyLen)
  {
    WrapFits(HEADER_LEN + bodyLen + footerLen);
    WrapFits(HEADER_LEN + bodyLen);
    FlagBytes();
  }

  lemma FlagBytes()
    ensures PutU(2, 3) == [3, 0]
  {
    assert LE(2, 3) == [3] + LE(1, 0) && LE(1, 0) == [0] + LE(0, 0);
  }

  /** A header keeps saying the same at the front of the whole object. */
  lemma HeaderInFront(h: Bytes, rest: Bytes, typeId: i32, hash: i32, total: i32, schemaId: i32, footerAt: i32)
    requires HeaderSays(h, typeId, hash, total, schemaId, footerAt)
    ensures HeaderSays(h + rest, typeId, hash, total, schemaId, footerAt)
  {
    SliceLeft(h, rest, 0, [103, 1, 3, 0]);
    SliceLeft(h, rest, 4, PutI32(typeId));
    SliceLeft(h, rest, 8, PutI32(hash));
    SliceLeft(h, rest, 12, PutI32(total));
    SliceLeft(h, rest, 16, PutI32(schemaId));
    SliceLeft(h, rest, 20, PutI32(footerAt));
  }

  lemma ObjectHeader(id: i32, hash: i32, schemaId: i32, fields: Bytes, footer: Bytes, w: Bytes)
    requires w == Header(id, hash, schemaId, |fields|, |footer|) + (fields + footer) && |w| < MAX_LEN
    ensures |w| == 24 + |fields| + |footer| && HeaderSays(w, id, hash, |w|, schemaId, 24 + |fields|)
  {
    HeaderSlices(id, hash, schemaId, |fields|, |footer|);
    var header := Header(id, hash, schemaId, |fields|, |footer|);
    HeaderInFront(header, fields + footer, id, hash, |w|, schemaId, 24 + |fields|);
  }

  lemma StructHeader(id: i32, fs: seq<Field>, parts: seq<Bytes>, hash: i32, schemaId: i32, w: Bytes)
    requires |parts| == |fs| && w == WriteStruct(id, fs, parts) && |w| < MAX_LEN
    requires hash == PolyHash(1, AsI8s(Concat(parts))) && schemaId == SchemaId(fs)
    ensures |w| == 24 + |Concat(parts)| + 8 * |fs|
    ensures HeaderSays(w, id, hash, |w|, schemaId, 24 + |Concat(parts)|)
  {
    ObjectHeader(id, hash, schemaId, Concat(parts), Footer(FieldIds(fs), parts, 0), w);
  }

  /** The header of an object shorter than 2^31 bytes: code, version and flags, the type id, the hash of the field
      bytes, the total length, the FNV-1 hash of the field ids, and the place of the footer. */
  lemma HeaderIsAccurate(id: i32, fs: seq<Field>, v: Val)
    requires HasType(v, Struct(id, fs)) && Size(Struct(id, fs), v) < MAX_LEN
    ensures var w, fields := Write(Struct(id, fs), v), Concat(FieldParts(fs, v.vs));
      && |w| == Size(Struct(id, fs), v) == 24 + |fields| + 8 * |fs|
      && HeaderSays(w, id, PolyHash(1, AsI8s(fields)), |w|, Fnv1(Concat(IdBytes(fs))), 24 + |fields|)
  {
    SizeIsLength(Struct(id, fs), v);
    SmallStruct(id, fs, v);
    SchemaIsFnv1(fs);
    var parts := FieldParts(fs, v.vs);
    StructHeader(id, fs, parts, PolyHash(1, AsI8s(Concat(parts))), SchemaId(fs), Write(Struct(id, fs), v));
  }

  lemma {:induction false} PartIsField(fs: seq<Field>, vs: seq<Val>, i: nat)
    requires AllTyped(vs, fs) && i < |fs|
    ensures FieldParts(fs, vs)[i] == Write(fs[i].ty, vs[i])
  {
    if i > 0 { PartIsField(fs[1..], vs[1..], i - 1); }
  }

  lemma FieldInObject(header: Bytes, parts: seq<Bytes>, footer: Bytes, i: nat)
    requires i < |parts|
    ensures SliceIs(header + (Concat(parts) + footer), |header| + |Concat(parts[..i])|, parts[i])
  {
    var start := |Concat(parts[..i])|;
    ConcatSlice(parts, i);
    SliceLeft(Concat(parts), footer, start, parts[i]);
    SliceRight(header, Concat(parts) + footer, start, parts[i]);
  }

  lemma EntryBytes(id: i32, at: nat)
    requires HEADER_LEN + at < MAX_LEN
    ensures FooterEntry(id, at) == PutI32(id) + PutI32(HEADER_LEN + at)
  {
    WrapFits(HEADER_LEN + at);
  }

  lemma SliceBehind(header: Bytes, fields: Bytes, footer: Bytes, at: nat, part: Bytes, same: Bytes)
    requires SliceIs(footer, at, part) && part == same
    ensures SliceIs(header + (fields + footer), |header| + |fields| + at, same)
  {
    SliceRight(fields, footer, at, part);
    SliceRight(header, fields + footer, |fields| + at, part);
  }

  lemma EntryInObject(header: Bytes, fields: Bytes, ids: seq<i32>, parts: seq<Bytes>, i: nat, at: i32)
    requires |parts| == |ids| && i < |ids| && at == HEADER_LEN + |Concat(parts[..i])|
    ensures SliceIs(header + (fields + Footer(ids, parts, 0)), |header| + |fields| + 8 * i, PutI32(ids[i]) + PutI32(at))
  {
    var start := |Concat(parts[..i])|;
    FooterSlice(ids, parts, 0, i);
    EntryBytes(ids[i], start);
    SliceBehind(header, fields, Footer(ids, parts, 0), 8 * i, FooterEntry(ids[i], start), PutI32(ids[i]) + PutI32(at));
  }

  lemma PlaceBound(parts: seq<Bytes>, i: nat)
    requires i < |parts|
    ensures |Concat(parts[..i])| <= |Concat(parts)|
  {
    ConcatSlice(parts, i);
  }

  lemma Points(w: Bytes, entry: int, id: i32, at: int, part: Bytes)
    requires 0 <= at < MAX_LEN && SliceIs(w, entry, PutI32(id) + PutI32(at)) && SliceIs(w, at, part)
    ensures EntryPointsAt(w, entry, id, at, part)
  {
  }

  lemma BodySlices(header: Bytes, ids: seq<i32>, parts: seq<Bytes>, i: nat)
    requires |parts| == |ids| && i < |ids| && |header| == HEADER_LEN
    requires HEADER_LEN + |Concat(parts)| < MAX_LEN
    ensures EntryPointsAt(header + (Concat(parts) + Footer(ids, parts, 0)),
        FooterPlace(parts, i), ids[i], FieldPlace(parts, i), parts[i])
  {
    PlaceBound(parts, i);
    var at: i32 := FieldPlace(parts, i);
    FieldInObject(header, parts, Footer(ids, parts, 0), i);
    EntryInObject(header, Concat(parts), ids, parts, i, at);
    Points(header + (Concat(parts) + Footer(ids, parts, 0)), FooterPlace(parts, i), ids[i], at, parts[i]);
  }

  lemma StructFooter(id: i32, fs: seq<Field>, parts: seq<Bytes>, i: nat, w: Bytes)
    requires |parts| == |fs| && i < |fs| && |w| < MAX_LEN && w == WriteStruct(id, fs, parts)
    ensures EntryPointsAt(w, FooterPlace(parts, i), PolyHash(0, fs[i].name), FieldPlace(parts, i), parts[i])
  {
    var header := Header(id, PolyHash(1, AsI8s(Concat(parts))), SchemaId(fs), |Concat(parts)|, 8 * |fs|);
    BodySlices(header, FieldIds(fs), parts, i);
  }

  /** Each footer entry names its field and points at exactly that field's bytes. */
  lemma FooterPointsAtFields(id: i32, fs: seq<Field>, v: Val, i: nat)
    requires HasType(v, Struct(id, fs)) && Size(Struct(id, fs), v) < MAX_LEN && i < |fs|
    ensures var parts := FieldParts(fs, v.vs);
      && parts[i] == Write(fs[i].ty, v.vs[i])
      && EntryPointsAt(Write(Struct(id, fs), v), FooterPlace(parts, i), PolyHash(0, fs[i].name),
           FieldPlace(parts, i), parts[i])
  {
    PartIsField(fs, v.vs, i);
    SmallStruct(id, fs, v);
    StructFooter(id, fs, FieldParts(fs, v.vs), i, Write(Struct(id, fs), v));
  }

  lemma SmallStruct(id: i32, fs: seq<Field>, v: Val)
    requires HasType(v, Struct(id, fs)) && Size(Struct(id, fs), v) < MAX_LEN
    ensures Write(Struct(id, fs), v) == WriteStruct(id, fs, FieldParts(fs, v.vs))
    ensures |Write(Struct(id, fs), v)| < MAX_LEN
  {
    SizeIsLength(Struct(id, fs), v);
  }
}
