/** Where the client's string hash, which folds Unicode scalars, is Java's, which folds UTF-16 code units. */
module JavaStrings {
  import opened Wire
  import opened Utf8
  import opened JavaHash

  const WORD := 0x1_0000_0000
  const PLANE := 0x1_0000

  /** The surrogate pair of a supplementary character. */
  function High(c: Scalar): int {
    0xD800 + (c - PLANE) / 0x400
  }

  function Low(c: Scalar): int {
    0xDC00 + c % 0x400
  }

  function Units(c: Scalar): seq<int> {
    if c < PLANE then [c] else [High(c), Low(c)]
  }

  /** The UTF-16 code units Java hashes. */
  function Utf16(cs: seq<Scalar>): seq<int> {
    if cs == [] then [] else Units(cs[0]) + Utf16(cs[1..])
  }

  /** The hash that routes the string is the one a Java server computes. */
  predicate Agrees(cs: seq<Scalar>) {
    PolyHash(0, cs) == PolyHash(0, Utf16(cs))
  }

  // ------------------------------------------------------------------ arithmetic modulo 2^32

  predicate Congruent(x: int, y: int) {
    (x - y) % WORD == 0
  }

  lemma WrapCongruent(x: int, y: int)
    ensures Wrap32(x) == Wrap32(y) <==> Congruent(x, y)
  {
  }

  lemma Multiple(x: int, k: int)
    requires x == WORD * k
    ensures x % WORD == 0
  {
  }

  /** 31 is invertible: 31 * 0xBDEF7BDF == 1 + 23 * 2^32. */
  lemma Cancel31(x: int, y: int)
    ensures Congruent(31 * x, 31 * y) <==> Congruent(x, y)
  {
    var d := x - y;
    assert 31 * x - 31 * y == 31 * d;
    if (31 * d) % WORD == 0 {
      var k := 31 * d / WORD;
      assert 31 * d == WORD * k;
      assert d == WORD * (0xBDEF7BDF * k - 23 * d);
      Multiple(d, 0xBDEF7BDF * k - 23 * d);
    } else if d % WORD == 0 {
      var k := d / WORD;
      assert d == WORD * k;
      Multiple(31 * d, 31 * k);
      assert false;
    }
  }

  // ------------------------------------------------------------------ one more character

  lemma HornerSnoc(xs: seq<int>, x: int)
    ensures Horner(0, xs + [x]) == 31 * Horner(0, xs) + x
  {
    assert (xs + [x])[..|xs|] == xs;
  }

  lemma {:induction false} Utf16Snoc(cs: seq<Scalar>, c: Scalar)
    ensures Utf16(cs + [c]) == Utf16(cs) + Units(c)
  {
    if cs == [] {
      assert cs + [c] == [c] && [c][1..] == [];
      assert Units(c) + [] == [] + Units(c);
    } else {
      Utf16Snoc(cs[1..], c);
      assert (cs + [c])[1..] == cs[1..] + [c];
      assert Units(cs[0]) + (Utf16(cs[1..]) + Units(c)) == Units(cs[0]) + Utf16(cs[1..]) + Units(c);
    }
  }

  /** A character of the plane at the end changes nothing. */
  lemma PlaneCharacterKeeps(cs: seq<Scalar>, b: Scalar)
    requires b < PLANE
    ensures Agrees(cs + [b]) <==> Agrees(cs)
  {
    var h, j := Horner(0, cs), Horner(0, Utf16(cs));
    Utf16Snoc(cs, b);
    HornerSnoc(cs, b);
    HornerSnoc(Utf16(cs), b);
    WrapCongruent(31 * h + b, 31 * j + b);
    WrapCongruent(h, j);
    Cancel31(h, j);
  }

  /** The two folds after a supplementary character that follows p. */
  function ClientFold(p: seq<Scalar>, c: Scalar): int {
    31 * Horner(0, p) + c
  }

  function JavaFold(p: seq<Scalar>, c: Scalar): int {
    961 * Horner(0, Utf16(p)) + 31 * High(c) + Low(c)
  }

  lemma ClientSnoc(p: seq<Scalar>, c: Scalar)
    ensures Horner(0, p + [c]) == ClientFold(p, c)
  {
    HornerSnoc(p, c);
  }

  lemma JavaSnoc(p: seq<Scalar>, c: Scalar)
    requires c >= PLANE
    ensures Horner(0, Utf16(p + [c])) == JavaFold(p, c)
  {
    var u := Utf16(p);
    Utf16Snoc(p, c);
    assert u + [High(c), Low(c)] == u + [High(c)] + [Low(c)];
    HornerSnoc(u, High(c));
    HornerSnoc(u + [High(c)], Low(c));
  }

  /** A supplementary character at the end: agreement is one congruence between the hashes before it. */
  lemma SupplementaryCharacter(p: seq<Scalar>, c: Scalar)
    requires c >= PLANE
    ensures Agrees(p + [c]) <==> Congruent(ClientFold(p, c), JavaFold(p, c))
  {
    ClientSnoc(p, c);
    JavaSnoc(p, c);
    WrapCongruent(ClientFold(p, c), JavaFold(p, c));
  }

  // ------------------------------------------------------------------ all strings

  predicate InPlane(cs: seq<Scalar>) {
    forall i :: 0 <= i < |cs| ==> cs[i] < PLANE
  }

  /** Text of the plane at the end changes nothing. */
  lemma {:induction false} PlaneTextKeeps(cs: seq<Scalar>, bs: seq<Scalar>)
    requires InPlane(bs)
    ensures Agrees(cs + bs) <==> Agrees(cs)
  {
    if bs == [] {
      assert cs + bs == cs;
    } else {
      var n := |bs| - 1;
      PlaneTextKeeps(cs, bs[..n]);
      PlaneCharacterKeeps(cs + bs[..n], bs[n]);
      assert cs + bs == cs + bs[..n] + [bs[n]];
    }
  }

  /** A string within the basic multilingual plane always agrees with Java. */
  lemma PlaneStringAgrees(cs: seq<Scalar>)
    requires InPlane(cs)
    ensures Agrees(cs)
  {
    assert Agrees([]);
    PlaneTextKeeps([], cs);
    assert [] + cs == cs;
  }

  /** Any other string is decided at its last supplementary character. */
  lemma DecidedAtLastSupplementary(cs: seq<Scalar>, k: nat)
    requires k < |cs| && cs[k] >= PLANE && InPlane(cs[k + 1..])
    ensures Agrees(cs) <==> Congruent(ClientFold(cs[..k], cs[k]), JavaFold(cs[..k], cs[k]))
  {
    assert cs == cs[..k] + [cs[k]] + cs[k + 1..];
    PlaneTextKeeps(cs[..k] + [cs[k]], cs[k + 1..]);
    SupplementaryCharacter(cs[..k], cs[k]);
  }

  /** A string whose only supplementary character comes first never agrees, whatever its length. */
  lemma LeadingSupplementaryNeverAgrees(c: Scalar, bs: seq<Scalar>)
    requires c >= PLANE && InPlane(bs)
    ensures !Agrees([c] + bs)
  {
    var cs := [c] + bs;
    assert cs[1..] == bs && cs[..0] == [];
    DecidedAtLastSupplementary(cs, 0);
    assert ClientFold([], c) == c && JavaFold([], c) == 31 * High(c) + Low(c);
  }

  lemma HornerThree(x: int, y: int, z: int)
    ensures Horner(0, [x, y, z]) == 961 * x + 31 * y + z
  {
    HornerSnoc([], x);
    HornerSnoc([x], y);
    HornerSnoc([x, y], z);
    assert [] + [x] == [x] && [x] + [y] == [x, y] && [x, y] + [z] == [x, y, z];
  }

  lemma AgreesBehind(p: seq<Scalar>)
    requires InPlane(p) && Horner(0, p) == 13853043
    ensures Agrees(p + [0x3_1800])
  {
    PlaneUnits(p);
    SupplementaryCharacter(p, 0x3_1800);
  }

  /** Behind other text it can agree: the condition is not void. */
  lemma SupplementaryCanAgree()
    ensures Agrees([0x3840, 0x190, 0x8C3] + [0x3_1800])
  {
    HornerThree(0x3840, 0x190, 0x8C3);
    AgreesBehind([0x3840, 0x190, 0x8C3]);
  }

  lemma {:induction false} PlaneUnits(cs: seq<Scalar>)
    requires InPlane(cs)
    ensures Utf16(cs) == cs
  {
    if cs != [] {
      PlaneUnits(cs[1..]);
      assert [cs[0]] + cs[1..] == cs;
    }
  }
}
