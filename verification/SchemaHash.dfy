/** The schema id of a derived object is the FNV-1 hash of its field ids, byte by byte. */
module SchemaHash {
  import opened Wire
  import opened Bits
  import opened JavaHash
  import opened Codec

  /** FNV-1 with 32 bits: offset basis, then for each byte exclusive or and multiplication by the prime. */
  function Fnv1(bytes: Bytes): i32 {
    if bytes == [] then Wrap32(0x811C_9DC5)
    else
      BaseValues();
      Wrap32(Xor(Unsigned(4, Fnv1(bytes[..|bytes| - 1])), bytes[|bytes| - 1]) * 0x0100_0193)
  }

  /** The ids of the fields as they stand on the wire. */
  function IdBytes(fs: seq<Field>): (ids: seq<Bytes>)
    ensures |ids| == |fs| && forall i :: 0 <= i < |fs| ==> ids[i] == PutI32(PolyHash(0, fs[i].name))
  {
    seq(|fs|, i requires 0 <= i < |fs| => PutI32(PolyHash(0, fs[i].name)))
  }

  lemma FnvSnoc(bytes: Bytes, b: byte)
    ensures Fnv1(bytes + [b]) == Fnv(Fnv1(bytes), b)
  {
    assert (bytes + [b])[..|bytes|] == bytes;
  }

  /** The bytes of a 32-bit integer, lowest first. */
  lemma PutI32Bytes(v: i32)
    ensures Fits(4, v)
    ensures var h := Unsigned(4, v); PutI32(v) == [h % 256, h / 0x100 % 256, h / 0x1_0000 % 256, h / 0x100_0000]
  {
    BaseValues();
    var h := Unsigned(4, v);
    assert LE(4, h) == [h % 256] + LE(3, h / 256);
    assert LE(3, h / 256) == [h / 256 % 256] + LE(2, h / 256 / 256);
    assert LE(2, h / 256 / 256) == [h / 256 / 256 % 256] + LE(1, h / 256 / 256 / 256);
    assert LE(1, h / 256 / 256 / 256) == [h / 256 / 256 / 256 % 256] + [];
  }

  lemma {:induction false} FnvConcat(bytes: Bytes, more: Bytes)
    ensures Fnv1(bytes + more) == FnvAll(Fnv1(bytes), more)
    decreases |more|
  {
    if more == [] {
      assert bytes + more == bytes;
    } else {
      FnvSnoc(bytes, more[0]);
      FnvConcat(bytes + [more[0]], more[1..]);
      assert bytes + [more[0]] + more[1..] == bytes + more;
    }
  }

  /** One more field: its id, byte by byte. */
  lemma SchemaUnfolds(fs: seq<Field>)
    requires fs != []
    ensures SchemaId(fs) == FnvAll(SchemaId(fs[..|fs| - 1]), PutI32(PolyHash(0, fs[|fs| - 1].name)))
  {
    PutI32Bytes(PolyHash(0, fs[|fs| - 1].name));
  }

  lemma IdBytesNext(fs: seq<Field>)
    requires fs != []
    ensures Concat(IdBytes(fs)) == Concat(IdBytes(fs[..|fs| - 1])) + PutI32(PolyHash(0, fs[|fs| - 1].name))
  {
    var n := |fs| - 1;
    var last := PutI32(PolyHash(0, fs[n].name));
    assert IdBytes(fs) == IdBytes(fs[..n]) + [last];
    ConcatSnoc(IdBytes(fs[..n]), last);
  }

  lemma {:induction false} SchemaIsFnv1(fs: seq<Field>)
    ensures SchemaId(fs) == Fnv1(Concat(IdBytes(fs)))
  {
    if fs != [] {
      var n := |fs| - 1;
      SchemaIsFnv1(fs[..n]);
      SchemaUnfolds(fs);
      IdBytesNext(fs);
      FnvConcat(Concat(IdBytes(fs[..n])), PutI32(PolyHash(0, fs[n].name)));
    }
  }
}
