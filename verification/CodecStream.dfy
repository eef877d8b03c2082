/** The codec as it runs: writers appending to buffers, readers advancing a cursor, both proved to follow
    the functions of `Codec`. */
module CodecStream {
  import opened Wire
  import opened Bits
  import opened Utf8
  import opened JavaHash
  import opened Codec
  import opened CodecRoundTrip

  class Writer {
    var buf: Bytes

    constructor ()
      ensures buf == []
    {
      buf := [];
    }

    method WriteAll(s: Bytes)
      modifies this
      ensures buf == old(buf) + s
    {
      buf := buf + s;
    }
  }

  // ------------------------------------------------------------------ writing

  lemma {:induction false} FooterSnoc(ids: seq<i32>, parts: seq<Bytes>, at: nat, id: i32, part: Bytes)
    requires |ids| == |parts|
    ensures Footer(ids + [id], parts + [part], at) == Footer(ids, parts, at) + FooterEntry(id, at + |Concat(parts)|)
  {
    var ids', parts' := ids + [id], parts + [part];
    if ids == [] {
      assert ids' == [id] && parts' == [part];
      FooterOne(id, part, at);
    } else {
      var next := at + |parts[0]|;
      assert ids'[1..] == ids[1..] + [id] && parts'[1..] == parts[1..] + [part];
      FooterSnoc(ids[1..], parts[1..], next, id, part);
      assert next + |Concat(parts[1..])| == at + |Concat(parts)|;
      Assoc(FooterEntry(ids[0], at), Footer(ids[1..], parts[1..], next), FooterEntry(id, at + |Concat(parts)|));
      FooterHead(ids', parts', at);
      FooterHead(ids, parts, at);
    }
  }

  lemma FooterHead(ids: seq<i32>, parts: seq<Bytes>, at: nat)
    requires |ids| == |parts| > 0
    ensures Footer(ids, parts, at) == FooterEntry(ids[0], at) + Footer(ids[1..], parts[1..], at + |parts[0]|)
  {
  }

  lemma FooterOne(id: i32, part: Bytes, at: nat)
    ensures Footer([id], [part], at) == FooterEntry(id, at)
  {
  }

  lemma {:induction false} PrimsSnoc(k: Kind, ns: seq<int>, i: nat)
    requires i < |ns| && forall j :: 0 <= j < |ns| ==> InKind(k, ns[j])
    ensures PutPrims(k, ns[..i + 1]) == PutPrims(k, ns[..i]) + PutPrim(k, ns[i])
  {
    if i == 0 {
      assert ns[..1] == [ns[0]] && ns[..1][1..] == [];
      assert PutPrim(k, ns[0]) + [] == [] + PutPrim(k, ns[0]);
    } else {
      PrimsSnoc(k, ns[1..], i - 1);
      assert ns[..i + 1][1..] == ns[1..][..i] && ns[..i][1..] == ns[1..][..i - 1];
      Assoc(PutPrim(k, ns[0]), PutPrims(k, ns[1..][..i - 1]), PutPrim(k, ns[i]));
    }
  }

  lemma {:induction false} ItemsSnoc(e: Ty, items: seq<Val>, i: nat)
    requires i < |items| && forall j :: 0 <= j < |items| ==> HasType(items[j], Opt(e))
    ensures WriteItems(e, items[..i + 1]) == WriteItems(e, items[..i]) + Write(Opt(e), items[i])
  {
    var last := Write(Opt(e), items[i]);
    if i == 0 {
      assert items[..1] == [items[0]] && items[..1][1..] == [];
      assert last + [] == [] + last;
    } else {
      ItemsSnoc(e, items[1..], i - 1);
      assert items[..i + 1][1..] == items[1..][..i] && items[..i][1..] == items[1..][..i - 1];
      Assoc(Write(Opt(e), items[0]), WriteItems(e, items[1..][..i - 1]), last);
    }
  }

  lemma {:induction false} SizeItemsSnoc(e: Ty, items: seq<Val>, i: nat)
    requires i < |items| && forall j :: 0 <= j < |items| ==> HasType(items[j], Opt(e))
    ensures SizeItems(e, items[..i + 1]) == SizeItems(e, items[..i]) + Size(Opt(e), items[i])
  {
    if i == 0 {
      assert items[..1] == [items[0]] && items[..1][1..] == [];
    } else {
      SizeItemsSnoc(e, items[1..], i - 1);
      assert items[..i + 1][1..] == items[1..][..i] && items[..i][1..] == items[1..][..i - 1];
    }
  }

  lemma AppendTwice(a: Bytes, b: Bytes, c: Bytes, d: Bytes)
    requires b + c == d
    ensures a + b + c == a + d
  {
  }

  lemma Assoc3(a: Bytes, b: Bytes, c: Bytes, d: Bytes)
    ensures a + b + c + d == a + (b + (c + d))
  {
  }

  lemma Assoc4(a: Bytes, b: Bytes, c: Bytes, d: Bytes, e: Bytes)
    ensures a + b + c + d + e == a + (b + (c + (d + e)))
  {
  }

  method WritePrims(k: Kind, ns: seq<int>, w: Writer)
    requires forall i :: 0 <= i < |ns| ==> InKind(k, ns[i])
    modifies w
    ensures w.buf == old(w.buf) + PutPrims(k, ns)
  {
    assert w.buf == w.buf + PutPrims(k, []);
    for i := 0 to |ns|
      invariant w.buf == old(w.buf) + PutPrims(k, ns[..i])
    {
      PrimsSnoc(k, ns, i);
      AppendTwice(old(w.buf), PutPrims(k, ns[..i]), PutPrim(k, ns[i]), PutPrims(k, ns[..i + 1]));
      w.WriteAll(PutPrim(k, ns[i]));
    }
    assert ns[..|ns|] == ns;
  }

  /** `WritableType::write` appends exactly the encoding. */
  method WriteValue(t: Ty, v: Val, w: Writer)
    requires HasType(v, t)
    modifies w
    ensures w.buf == old(w.buf) + Write(t, v)
    decreases v, 1
  {
    match t {
      case Prim(k) =>
        w.WriteAll([Code(k)]);
        w.WriteAll(PutPrim(k, v.n));
        Assoc(old(w.buf), [Code(k)], PutPrim(k, v.n));
      case EnumT =>
        w.WriteAll([28]);
        w.WriteAll(PutI32(v.typeId));
        w.WriteAll(PutI32(v.ordinal));
        Assoc3(old(w.buf), [28], PutI32(v.typeId), PutI32(v.ordinal));
      case Str =>
        w.WriteAll([9]);
        w.WriteAll(PutI32(|Encode(v.chars)|));
        w.WriteAll(Encode(v.chars));
        Assoc3(old(w.buf), [9], PutI32(|Encode(v.chars)|), Encode(v.chars));
      case Arr(k) =>
        w.WriteAll([ArrCode(k)]);
        w.WriteAll(PutI32(|v.ns|));
        WritePrims(k, v.ns, w);
        Assoc3(old(w.buf), [ArrCode(k)], PutI32(|v.ns|), PutPrims(k, v.ns));
      case ObjArr(e) =>
        w.WriteAll([23]);
        w.WriteAll(PutI32(-1));
        w.WriteAll(PutI32(|v.items|));
        WriteObjects(e, v.items, w);
        Assoc4(old(w.buf), [23], PutI32(-1), PutI32(|v.items|), WriteItems(e, v.items));
      case Opt(e) =>
        if v.Nothing? {
          w.WriteAll([NULL]);
        } else {
          WriteValue(e, v.v, w);
        }
      case Struct(id, fs) =>
        WriteObject(id, fs, v.vs, w);
    }
  }

  method WriteObjects(e: Ty, items: seq<Val>, w: Writer)
    requires forall i :: 0 <= i < |items| ==> HasType(items[i], Opt(e))
    modifies w
    ensures w.buf == old(w.buf) + WriteItems(e, items)
    decreases items, 0
  {
    assert w.buf == w.buf + WriteItems(e, []);
    for i := 0 to |items|
      invariant w.buf == old(w.buf) + WriteItems(e, items[..i])
    {
      ItemsSnoc(e, items, i);
      AppendTwice(old(w.buf), WriteItems(e, items[..i]), Write(Opt(e), items[i]), WriteItems(e, items[..i + 1]));
      WriteValue(Opt(e), items[i], w);
    }
    assert items[..|items|] == items;
  }

  lemma PartsNext(parts: seq<Bytes>, i: nat)
    requires i < |parts|
    ensures Concat(parts[..i + 1]) == Concat(parts[..i]) + parts[i]
  {
    assert parts[..i + 1] == parts[..i] + [parts[i]];
    ConcatSnoc(parts[..i], parts[i]);
  }

  lemma FooterNext(ids: seq<i32>, parts: seq<Bytes>, i: nat)
    requires |ids| == |parts| && i < |ids|
    ensures Footer(ids[..i + 1], parts[..i + 1], 0) ==
      Footer(ids[..i], parts[..i], 0) + FooterEntry(ids[i], |Concat(parts[..i])|)
  {
    assert parts[..i + 1] == parts[..i] + [parts[i]] && ids[..i + 1] == ids[..i] + [ids[i]];
    FooterSnoc(ids[..i], parts[..i], 0, ids[i], parts[i]);
  }

  /** The derived loop over the fields fills two buffers: the fields themselves and the footer. */
  method WriteFields(fs: seq<Field>, vs: seq<Val>) returns (fields: Bytes, schema: Bytes)
    requires AllTyped(vs, fs)
    ensures fields == Concat(FieldParts(fs, vs)) && schema == Footer(FieldIds(fs), FieldParts(fs, vs), 0)
    decreases vs, 0
  {
    ghost var parts := FieldParts(fs, vs);
    ghost var ids := FieldIds(fs);
    var body := new Writer();
    var foot := new Writer();
    for i := 0 to |fs|
      invariant fresh(body) && fresh(foot) && body != foot
      invariant body.buf == Concat(parts[..i])
      invariant foot.buf == Footer(ids[..i], parts[..i], 0)
    {
      PartIsField(fs, vs, i);
      PartsNext(parts, i);
      FooterNext(ids, parts, i);
      var id := StringToJavaHashcode(fs[i].name);
      foot.WriteAll(FooterEntry(id, |body.buf|));
      WriteValue(fs[i].ty, vs[i], body);
    }
    assert parts[..|fs|] == parts && ids[..|fs|] == ids;
    fields, schema := body.buf, foot.buf;
  }

  lemma HeaderParts(id: i32, hash: i32, schemaId: i32, bodyLen: nat, footerLen: nat)
    ensures [COMPLEX_OBJ] + [1] + PutU(2, 3) + PutI32(id) + PutI32(hash)
        + PutI32(Wrap32(HEADER_LEN + bodyLen + footerLen)) + PutI32(schemaId) + PutI32(Wrap32(HEADER_LEN + bodyLen))
      == Header(id, hash, schemaId, bodyLen, footerLen)
  {
  }

  /** The derived `write`. */
  method WriteObject(id: i32, fs: seq<Field>, vs: seq<Val>, w: Writer)
    requires AllTyped(vs, fs)
    modifies w
    ensures w.buf == old(w.buf) + WriteStruct(id, fs, FieldParts(fs, vs))
    decreases vs, 1
  {
    var fields, schema := WriteFields(fs, vs);
    var hash := BytesToJavaHashcode(fields);
    WriteParts(id, hash, SchemaId(fs), fields, schema, w);
  }

  method WriteParts(id: i32, hash: i32, schemaId: i32, fields: Bytes, schema: Bytes, w: Writer)
    modifies w
    ensures w.buf == old(w.buf) + (Header(id, hash, schemaId, |fields|, |schema|) + (fields + schema))
  {
    var header := new Writer();
    header.WriteAll([COMPLEX_OBJ]);
    header.WriteAll([1]);
    header.WriteAll(PutU(2, 3));
    header.WriteAll(PutI32(id));
    header.WriteAll(PutI32(hash));
    header.WriteAll(PutI32(Wrap32(HEADER_LEN + |fields| + |schema|)));
    header.WriteAll(PutI32(schemaId));
    header.WriteAll(PutI32(Wrap32(HEADER_LEN + |fields|)));
    HeaderParts(id, hash, schemaId, |fields|, |schema|);
    assert [] + [COMPLEX_OBJ] == [COMPLEX_OBJ];
    var start := header.buf;
    w.WriteAll(start);
    w.WriteAll(fields);
    w.WriteAll(schema);
    Assoc(old(w.buf) + start, fields, schema);
    Assoc(old(w.buf), start, fields + schema);
  }

  /** `WritableType::size` is the number of bytes `write` appends. */
  method SizeOf(t: Ty, v: Val) returns (n: nat)
    requires HasType(v, t)
    ensures n == |Write(t, v)| == Size(t, v)
    decreases v, 1
  {
    SizeIsLength(t, v);
    match t {
      case Prim(k) => n := Width(k) + 1;
      case EnumT => n := 8 + 1;
      case Str => n := |Encode(v.chars)| + 1 + 4;
      case Arr(k) => n := ArrayBytes(k, |v.ns|) + 4 + 1;
      case ObjArr(e) =>
        var items := SizeOfObjects(e, v.items);
        n := items + 1 + 4 + 4;
      case Opt(e) =>
        if v.Nothing? { n := 1; } else { n := SizeOf(e, v.v); }
      case Struct(_, fs) =>
        n := SizeOfFields(fs, v.vs);
    }
  }

  method SizeOfObjects(e: Ty, items: seq<Val>) returns (n: nat)
    requires forall i :: 0 <= i < |items| ==> HasType(items[i], Opt(e))
    ensures n == SizeItems(e, items)
    decreases items, 0
  {
    n := 0;
    for i := 0 to |items|
      invariant n == SizeItems(e, items[..i])
    {
      SizeItemsSnoc(e, items, i);
      var size := SizeOf(Opt(e), items[i]);
      n := n + size;
    }
    assert items[..|items|] == items;
  }

  method SizeOfFields(fs: seq<Field>, vs: seq<Val>) returns (n: nat)
    requires AllTyped(vs, fs)
    ensures n == HEADER_LEN + SizeFields(fs, vs)
    decreases vs, 0
  {
    n := HEADER_LEN;
    for i := 0 to |fs|
      invariant n + SizeFields(fs[i..], vs[i..]) == HEADER_LEN + SizeFields(fs, vs)
    {
      assert fs[i..][1..] == fs[i + 1..] && vs[i..][1..] == vs[i + 1..];
      var size := SizeOf(fs[i].ty, vs[i]);
      n := n + (size + 4 + 4);
    }
  }

  // ------------------------------------------------------------------ reading

  /** Like `Follows`, except that an error may differ in kind, never in being a panic: behind an envelope
      with a bad payload the trailing offset is still read, and its own failure wins. */
  predicate Tracks<T(==)>(p: Parse<T>, r: Result<T>, rest: Bytes) {
    match p
    case Got(v, after) => r == Ok(v) && rest == after
    case Bad(f) => r.Err? && (r.fault == Panic <==> f == Panic)
  }

  method SkipInts(width: nat, n: nat, r: Reader) returns (res: Result<()>)
    requires width == 4 || width == 8
    modifies r
    ensures Follows(Skip(width * n, old(r.rest)), res, r.rest)
  {
    var i := 0;
    ghost var start := r.rest;
    while i < n
      invariant 0 <= i <= n && width * i <= |start|
      invariant r.rest == start[width * i..]
    {
      var x := r.ReadInt(width);
      if x.Err? { return Err(x.fault); }
      i := i + 1;
    }
    res := Ok(());
  }

  method ReadPrim(k: Kind, r: Reader) returns (res: Result<int>)
    modifies r
    ensures Follows(GetPrim(k, old(r.rest)), res, r.rest)
  {
    if k.Boolean? {
      var b := r.ReadBool();
      res := if b.Err? then Err(b.fault) else Ok(if b.value then 1 else 0);
    } else if IsSigned(k) {
      res := r.ReadInt(Width(k));
    } else {
      var n := r.ReadNat(Width(k));
      res := if n.Err? then Err(n.fault) else Ok(n.value);
    }
  }

  lemma PrimsNext(done: seq<int>, k: Kind, n: nat, s: Bytes)
    requires n > 0
    ensures match GetPrim(k, s)
      case Bad(f) => Prepend(done, GetPrims(k, n, s)) == Bad(f)
      case Got(x, rest) => Prepend(done, GetPrims(k, n, s)) == Prepend(done + [x], GetPrims(k, n - 1, rest))
  {
    if GetPrim(k, s).Got? {
      PrependTwice(done, [GetPrim(k, s).value], GetPrims(k, n - 1, GetPrim(k, s).rest));
    }
  }

  /** The loop of `read_primitive_arr`. */
  method ReadPrims(k: Kind, n: nat, r: Reader) returns (res: Result<seq<int>>)
    modifies r
    ensures Follows(GetPrims(k, n, old(r.rest)), res, r.rest)
  {
    var payload: seq<int>, i := [], 0;
    ghost var start := r.rest;
    PrependNothing(GetPrims(k, n, start));
    while i < n
      invariant 0 <= i <= n
      invariant GetPrims(k, n, start) == Prepend(payload, GetPrims(k, n - i, r.rest))
    {
      PrimsNext(payload, k, n - i, r.rest);
      var x := ReadPrim(k, r);
      if x.Err? { return Err(x.fault); }
      payload := payload + [x.value];
      i := i + 1;
    }
    PrependToNothing(payload, r.rest);
    res := Ok(payload);
  }

  method ReadString(r: Reader) returns (res: Result<seq<Scalar>>)
    modifies r
    ensures Follows(GetText(old(r.rest)), res, r.rest)
  {
    var len := r.ReadI32();
    if len.Err? { return Err(len.fault); }
    if len.value < 0 { return Err(Panic); }
    if |r.rest| < len.value { return Err(EndOfInput); }
    res := Decode(r.rest[..len.value]);
    r.rest := r.rest[len.value..];
  }

  method ReadHeader(typeId: i32, r: Reader) returns (res: Result<()>)
    modifies r
    ensures Follows(GetHeader(typeId, old(r.rest)), res, r.rest)
  {
    var version := r.ReadByte();
    if version.Err? { return Err(version.fault); }
    var flags := r.ReadNat(2);
    if flags.Err? { return Err(flags.fault); }
    if And(flags.value, 0x02) == 0 { return Err(BadFormat); }
    if And(flags.value, 0x20) != 0 { return Err(BadFormat); }
    if And(flags.value, 0x08) != 0 || And(flags.value, 0x10) != 0 { return Err(BadFormat); }
    var id := r.ReadI32();
    if id.Err? { return Err(id.fault); }
    if id.value != typeId { return Err(BadFormat); }
    res := SkipInts(4, 4, r);
  }

  /** `read_wrapped_data`: every typed read starts here. */
  method ReadValue(t: Ty, r: Reader) returns (res: Result<Val>)
    modifies r
    ensures Tracks(Read(t, old(r.rest)), res, r.rest)
    decreases |r.rest|, 2, t
  {
    var code := r.ReadByte();
    if code.Err? { return Err(code.fault); }
    if !KnownCode(code.value) { return Err(BadTypeCode); }
    if code.value == NULL { return Ok(Nothing); }
    if code.value == WRAPPED {
      var len := SkipInts(4, 1, r);
      if len.Err? { return Err(len.fault); }
      var value := ReadValue(t, r);
      if value.Err? && value.fault == Panic { return Err(Panic); }
      var offset := SkipInts(4, 1, r);
      if offset.Err? { return Err(offset.fault); }
      return value;
    }
    res := ReadBody(t, code.value, r);
  }

  /** `read_unwrapped` */
  method ReadBody(t: Ty, code: byte, r: Reader) returns (res: Result<Val>)
    modifies r
    ensures Tracks(ReadUnwrapped(t, code, old(r.rest)), res, r.rest)
    decreases |r.rest|, 1, t
  {
    if t.Opt? {
      var inner := ReadBody(t.inner, code, r);
      if inner.Err? { return inner; }
      return Ok(if inner.value == Nothing then Nothing else Just(inner.value));
    }
    if code == NULL { return Ok(Nothing); }
    match t {
      case Prim(k) =>
        var n := ReadPrim(k, r);
        res := if n.Err? then Err(n.fault) else Ok(Just(Num(n.value)));
      case EnumT =>
        var id := r.ReadI32();
        if id.Err? { return Err(id.fault); }
        var ord := r.ReadI32();
        res := if ord.Err? then Err(ord.fault) else Ok(Just(EnumV(id.value, ord.value)));
      case Str =>
        var cs := ReadString(r);
        res := if cs.Err? then Err(cs.fault) else Ok(Just(Text(cs.value)));
      case Arr(k) =>
        var len := r.ReadI32();
        if len.Err? { return Err(len.fault); }
        if len.value < 0 { return Err(Panic); }
        var ns := ReadPrims(k, len.value, r);
        res := if ns.Err? then Err(ns.fault) else Ok(Just(Nums(ns.value)));
      case ObjArr(e) =>
        if code == 23 {
          var id := SkipInts(4, 1, r);
          if id.Err? { return Err(id.fault); }
          var len := r.ReadI32();
          if len.Err? { return Err(len.fault); }
          res := ReadObjects(e, len.value, r);
        } else if code == 24 {
          var len := r.ReadI32();
          if len.Err? { return Err(len.fault); }
          var kind := r.ReadByte();
          if kind.Err? { return Err(kind.fault); }
          res := ReadObjects(e, len.value, r);
        } else {
          res := Err(BadFormat);
        }
      case Struct(id, fs) =>
        var header := ReadHeader(id, r);
        if header.Err? { return Err(header.fault); }
        var vs := ReadFieldValues(fs, r);
        if vs.Err? { return Err(vs.fault); }
        var footer := SkipInts(8, |fs|, r);
        res := if footer.Err? then Err(footer.fault) else Ok(Just(Record(vs.value)));
    }
  }

  lemma ItemsNext(done: seq<Val>, e: Ty, n: nat, s: Bytes)
    requires n > 0
    ensures match Read(e, s)
      case Bad(f) => Prepend(done, ReadItems(e, n, s)) == Bad(f)
      case Got(x, rest) => Prepend(done, ReadItems(e, n, s)) == Prepend(done + [x], ReadItems(e, n - 1, rest))
  {
    if Read(e, s).Got? {
      PrependTwice(done, [Read(e, s).value], ReadItems(e, n - 1, Read(e, s).rest));
    }
  }

  method ReadObjects(e: Ty, len: i32, r: Reader) returns (res: Result<Val>)
    modifies r
    ensures Tracks(ReadObjs(e, len, old(r.rest)), res, r.rest)
    decreases |r.rest|, 4
  {
    if len < 0 { return Err(Panic); }
    var data: seq<Val>, i := [], 0;
    ghost var start := r.rest;
    PrependNothing(ReadItems(e, len, start));
    while i < len
      invariant 0 <= i <= len && |r.rest| <= |start|
      invariant ReadItems(e, len, start) == Prepend(data, ReadItems(e, len - i, r.rest))
    {
      ItemsNext(data, e, len - i, r.rest);
      var item := ReadValue(e, r);
      if item.Err? { return Err(item.fault); }
      data := data + [item.value];
      i := i + 1;
    }
    PrependToNothing(data, r.rest);
    res := Ok(Just(Objs(data)));
  }

  lemma FieldsNext(done: seq<Val>, fs: seq<Field>, s: Bytes)
    requires fs != []
    ensures match Read(fs[0].ty, s)
      case Bad(f) => Prepend(done, ReadFields(fs, s)) == Bad(f)
      case Got(x, rest) =>
        Prepend(done, ReadFields(fs, s)) ==
          if x.Just? then Prepend(done + [x.v], ReadFields(fs[1..], rest)) else Bad(Panic)
  {
    var p := Read(fs[0].ty, s);
    if p.Got? && p.value.Just? {
      PrependTwice(done, [p.value.v], ReadFields(fs[1..], p.rest));
    }
  }

  /** The derived reader's `read(...)?.unwrap()` for each field. */
  method ReadFieldValues(fs: seq<Field>, r: Reader) returns (res: Result<seq<Val>>)
    modifies r
    ensures Tracks(ReadFields(fs, old(r.rest)), res, r.rest)
    decreases |r.rest|, 3
  {
    var vs: seq<Val>, i := [], 0;
    ghost var start := r.rest;
    PrependNothing(ReadFields(fs, start));
    assert fs[0..] == fs;
    while i < |fs|
      invariant 0 <= i <= |fs| && |r.rest| <= |start|
      invariant ReadFields(fs, start) == Prepend(vs, ReadFields(fs[i..], r.rest))
    {
      FieldsNext(vs, fs[i..], r.rest);
      assert fs[i..][1..] == fs[i + 1..];
      var v := ReadValue(fs[i].ty, r);
      if v.Err? { return Err(v.fault); }
      if !v.value.Just? { return Err(Panic); }
      vs := vs + [v.value.v];
      i := i + 1;
    }
    PrependToNothing(vs, r.rest);
    res := Ok(vs);
  }
}
