/** What UTF-8 is: the encoding of Unicode scalar values (table 3-6 of the Unicode Standard), and what the
    decoder's chunks are in its terms. */
module Scalars {
  import opened Prelude
  import opened Utf8

  /** A code point that is no surrogate. */
  type scalar = c: nat | c < 0xD800 || 0xE000 <= c < 0x11_0000

  function Trail(c: nat): byte {
    0x80 + c % 0x40
  }

  function Encoding(c: scalar): (e: Bytes)
    ensures 1 <= |e| <= 4
  {
    if c < 0x80 then [c]
    else if c < 0x800 then [0xC0 + c / 0x40, Trail(c)]
    else if c < 0x1_0000 then [0xE0 + c / 0x1000, Trail(c / 0x40), Trail(c)]
    else [0xF0 + c / 0x4_0000, Trail(c / 0x1000), Trail(c / 0x40), Trail(c)]
  }

  function Encodings(cs: seq<scalar>): Bytes {
    if cs == [] then [] else Encoding(cs[0]) + Encodings(cs[1..])
  }

  /** The code point of a well-formed head. */
  function CodePoint(s: Bytes): scalar
    requires s != [] && Head(s).wellFormed
  {
    match Head(s).len
    case 1 => s[0]
    case 2 => (s[0] as int - 0xC0) * 0x40 + (s[1] as int - 0x80)
    case 3 => (s[0] as int - 0xE0) * 0x1000 + (s[1] as int - 0x80) * 0x40 + (s[2] as int - 0x80)
    case _ =>
      (s[0] as int - 0xF0) * 0x4_0000 + (s[1] as int - 0x80) * 0x1000 + (s[2] as int - 0x80) * 0x40
      + (s[3] as int - 0x80)
  }

  /** A well-formed head is the encoding of a scalar value. */
  lemma HeadIsScalar(s: Bytes)
    requires s != [] && Head(s).wellFormed
    ensures Encoding(CodePoint(s)) == s[..Head(s).len]
  {
    match Head(s).len
    case 1 =>
    case 2 => TwoOctets(s);
    case 3 => ThreeOctets(s);
    case _ => FourOctets(s);
  }

  lemma Digits(a: nat, b: nat, d: nat)
    requires b < 0x40 && d < 0x40
    ensures var c := a * 0x1000 + b * 0x40 + d; c / 0x1000 == a && c / 0x40 % 0x40 == b && c % 0x40 == d
  {
    assert a * 0x1000 + b * 0x40 + d == 0x40 * (0x40 * a + b) + d;
    assert (a * 0x1000 + b * 0x40 + d) / 0x40 == 0x40 * a + b;
  }

  lemma TwoOctets(s: Bytes)
    requires s != [] && Head(s) == Chunk(true, 2)
    ensures Encoding(CodePoint(s)) == s[..2]
  {
  }

  lemma ThreeOctets(s: Bytes)
    requires s != [] && Head(s) == Chunk(true, 3)
    ensures Encoding(CodePoint(s)) == s[..3]
  {
    Digits(s[0] as int - 0xE0, s[1] as int - 0x80, s[2] as int - 0x80);
  }

  lemma FourOctets(s: Bytes)
    requires s != [] && Head(s) == Chunk(true, 4)
    ensures Encoding(CodePoint(s)) == s[..4]
  {
    Digits(0x40 * (s[0] as int - 0xF0) + (s[1] as int - 0x80), s[2] as int - 0x80, s[3] as int - 0x80);
    Digits(0, s[0] as int - 0xF0, s[1] as int - 0x80);
  }

  /** The encoding of a scalar value is a well-formed head, whatever follows. */
  lemma ScalarIsHead(c: scalar, rest: Bytes)
    ensures Head(Encoding(c) + rest) == Chunk(true, |Encoding(c)|)
  {
    EncodingShape(c);
    hide Encoding;
  }

  /** The strings are exactly the encodings of sequences of scalar values. */
  lemma ValidExactly(s: Bytes)
    ensures Valid(s) <==> exists cs :: Encodings(cs) == s
  {
    if Valid(s) {
      var cs := Points(s);
    }
    if cs :| Encodings(cs) == s {
      EncodingsAreValid(cs);
    }
  }

  lemma ValidRest(s: Bytes)
    requires Valid(s) && s != []
    ensures Head(s).wellFormed && Valid(s[Head(s).len..])
  {
  }

  lemma EncodingsNext(c: scalar, rest: seq<scalar>)
    ensures Encodings([c] + rest) == Encoding(c) + Encodings(rest)
  {
    assert ([c] + rest)[1..] == rest;
  }

  lemma {:induction false} Points(s: Bytes) returns (cs: seq<scalar>)
    requires Valid(s)
    ensures Encodings(cs) == s
  {
    if s == [] {
      cs := [];
      assert Encodings([]) == [];
    } else {
      ValidRest(s);
      var rest := Points(s[Head(s).len..]);
      cs := PointsJoin(s, rest);
    }
  }

  lemma PointsJoin(s: Bytes, rest: seq<scalar>) returns (cs: seq<scalar>)
    requires s != [] && Head(s).wellFormed && Encodings(rest) == s[Head(s).len..]
    ensures Encodings(cs) == s
  {
    HeadIsScalar(s);
    hide Head, Encoding, CodePoint, Encodings;
    cs := [CodePoint(s)] + rest;
    EncodingsNext(CodePoint(s), rest);
    assert s == s[..Head(s).len] + s[Head(s).len..];
  }

  lemma {:induction false} EncodingsAreValid(cs: seq<scalar>)
    ensures Valid(Encodings(cs))
  {
    if cs == [] {
    } else {
      var one, rest := Encoding(cs[0]), Encodings(cs[1..]);
      ScalarIsHead(cs[0], rest);
      EncodingsAreValid(cs[1..]);
      hide Head, Encoding;
      assert (one + rest)[|one|..] == rest;
    }
  }

  // ── Ill-formed subparts ─────────────────────────────────────────────────────

  /** A scalar value could still come of `p`. */
  ghost predicate Begins(p: Bytes) {
    exists c: scalar :: p < Encoding(c)
  }

  lemma EncodingShape(c: scalar)
    ensures var e := Encoding(c);
            && CharLen(e[0]) == |e| && (|e| >= 2 ==> SecondOk(e[0], e[1]))
            && forall i | 2 <= i < |e| :: Continuation(e[i])
  {
    if c < 0x80 {
    } else if c < 0x800 {
      assert 2 <= c / 0x40 < 0x20;
    } else if c < 0x1_0000 {
      ThreeShape(c);
    } else {
      FourShape(c);
    }
  }

  lemma ThreeShape(c: scalar)
    requires 0x800 <= c < 0x1_0000
    ensures SecondOk(0xE0 + c / 0x1000, Trail(c / 0x40))
  {
    assert c / 0x1000 == 0 ==> c / 0x40 >= 0x20;
    assert c / 0x1000 == 0xD ==> 0x340 <= c / 0x40 < 0x360;
  }

  lemma FourShape(c: scalar)
    requires 0x1_0000 <= c
    ensures SecondOk(0xF0 + c / 0x4_0000, Trail(c / 0x1000))
  {
    assert c / 0x4_0000 == 0 ==> c / 0x1000 >= 0x10;
    assert c / 0x4_0000 == 4 ==> 0x100 <= c / 0x1000 < 0x110;
  }

  /** What is replaced is as much of the input as could begin a character, and at least one octet. */
  lemma IllFormedIsMaximal(s: Bytes)
    requires s != [] && !Head(s).wellFormed
    ensures Head(s).len == 1 || Begins(s[..Head(s).len])
    ensures forall m | Head(s).len < m <= |s| :: !Begins(s[..m])
    ensures forall c: scalar :: !(Encoding(c) <= s)
  {
    if Head(s).len > 1 {
      PartBegins(s);
    }
    forall m, c: scalar | 0 < m <= |s| && s[..m] < Encoding(c) ensures m <= Head(s).len {
      PartIsShorter(s, m, c);
    }
    forall c: scalar ensures Encoding(c) <= s ==> Head(s).wellFormed {
      WholeIsHead(s, c);
    }
  }

  lemma PartIsShorter(s: Bytes, m: nat, c: scalar)
    requires m <= |s| && s[..m] < Encoding(c) && m > 0
    ensures !Head(s).wellFormed ==> m <= Head(s).len
  {
    EncodingShape(c);
    var e := Encoding(c);
    hide Encoding;
    assert forall i | 0 <= i < m :: s[i] == e[i];
  }

  lemma WholeIsHead(s: Bytes, c: scalar)
    ensures Encoding(c) <= s ==> s != [] && Head(s).wellFormed
  {
    if Encoding(c) <= s {
      ScalarIsHead(c, s[|Encoding(c)|..]);
      hide Encoding, Head;
      assert Encoding(c) + s[|Encoding(c)|..] == s;
    }
  }

  lemma PartBegins(s: Bytes)
    requires s != [] && !Head(s).wellFormed && Head(s).len > 1
    ensures Begins(s[..Head(s).len])
  {
    var n := Head(s).len;
    var whole := s[..n] + [0x80, 0x80][..CharLen(s[0]) - n];
    assert Head(whole) == Chunk(true, CharLen(s[0]));
    HeadIsScalar(whole);
    hide Encoding, CodePoint, Head;
    var c: scalar := CodePoint(whole);
    assert whole[..|whole|] == whole;
    assert s[..n] < Encoding(c);
  }
}
