/** Percent-encoding of query values (sections 2.1 and 2.3 of RFC 3986): the server's encoder and the
    client's decoder. */
module PercentEncoding {
  import opened Prelude
  import opened Utf8

  const PERCENT: byte := 0x25
  const PLUS: byte := 0x2B
  const SPACE: byte := 0x20

  predicate Unreserved(b: byte) {
    || 0x41 <= b <= 0x5A || 0x61 <= b <= 0x7A || 0x30 <= b <= 0x39
    || b == 0x2D || b == 0x5F || b == 0x2E || b == 0x7E
  }

  /** An upper-case hexadecimal digit. */
  function HexDigit(v: nat): (b: byte)
    requires v < 16
    ensures Unreserved(b) && HexVal(b) == Some(v)
  {
    if v < 10 then 0x30 + v else 0x41 + v - 10
  }

  function HexVal(b: byte): (v: Option<nat>)
    ensures v.Some? ==> v.value < 16
  {
    if 0x30 <= b <= 0x39 then Some(b - 0x30)
    else if 0x61 <= b <= 0x66 then Some(b - 0x61 + 10)
    else if 0x41 <= b <= 0x46 then Some(b - 0x41 + 10)
    else None
  }

  /** Every octet outside `Unreserved` as a percent triplet. */
  function Encoded(s: Bytes): Bytes {
    if s == [] then [] else Encoded(s[..|s| - 1]) + EncodedByte(s[|s| - 1])
  }

  function EncodedByte(b: byte): Bytes {
    if Unreserved(b) then [b] else [PERCENT, HexDigit(b / 16), HexDigit(b % 16)]
  }

  method UrlEncode(s: Bytes) returns (out: Bytes)
    ensures out == Encoded(s)
  {
    out := [];
    for i := 0 to |s|
      invariant out == Encoded(s[..i])
    {
      assert s[..i + 1][..i] == s[..i];
      var b := s[i];
      if Unreserved(b) {
        out := out + [b];
      } else {
        out := out + [PERCENT, HexDigit(b / 16), HexDigit(b % 16)];
      }
    }
    assert s[..|s|] == s;
  }

  /** The first octet decoded, and how much of `s` it took. */
  function DecodedHead(s: Bytes): (r: (byte, nat))
    requires s != []
    ensures 1 <= r.1 <= |s|
  {
    if s[0] == PERCENT && 2 < |s| && HexVal(s[1]).Some? && HexVal(s[2]).Some? then
      (HexVal(s[1]).value * 16 + HexVal(s[2]).value, 3)
    else if s[0] == PLUS then (SPACE, 1)
    else (s[0], 1)
  }

  function DecodedBytes(s: Bytes): Bytes {
    if s == [] then [] else [DecodedHead(s).0] + DecodedBytes(s[DecodedHead(s).1..])
  }

  function Decoded(s: Bytes): Bytes {
    Lossy(DecodedBytes(s))
  }

  /** Decodes triplets and `+`; a percent sign that starts no triplet stands for itself. */
  method UrlDecode(s: Bytes) returns (t: Bytes)
    ensures t == Decoded(s)
  {
    hide Lossy, DecodedBytes;
    var out: Bytes := [];
    var i := 0;
    assert s[0..] == s && DecodedBytes(s) == out + DecodedBytes(s);
    while i < |s|
      invariant i <= |s|
      invariant DecodedBytes(s) == out + DecodedBytes(s[i..])
    {
      DecodeNext(s, i, out);
      if s[i] == PERCENT && i + 2 < |s| {
        var h, l := HexVal(s[i + 1]), HexVal(s[i + 2]);
        if h.Some? && l.Some? {
          out := out + [h.value * 16 + l.value];
          i := i + 3;
        } else {
          out := out + [PERCENT];
          i := i + 1;
        }
      } else if s[i] == PLUS {
        out := out + [SPACE];
        i := i + 1;
      } else {
        out := out + [s[i]];
        i := i + 1;
      }
    }
    DecodeEnd(s, i, out);
    return Lossy(out);
  }

  lemma DecodeNext(s: Bytes, i: nat, out: Bytes)
    requires i < |s| && DecodedBytes(s) == out + DecodedBytes(s[i..])
    ensures var (b, n) := DecodedHead(s[i..]); i + n <= |s| && DecodedBytes(s) == out + [b] + DecodedBytes(s[i + n..])
  {
    hide DecodedHead, DecodedBytes;
    DecodeUnfold(s[i..]);
    var (b, n) := DecodedHead(s[i..]);
    assert s[i..][n..] == s[i + n..];
    Associate(out, [b], DecodedBytes(s[i + n..]));
  }

  lemma DecodeUnfold(s: Bytes)
    requires s != []
    ensures DecodedBytes(s) == [DecodedHead(s).0] + DecodedBytes(s[DecodedHead(s).1..])
  {
  }

  lemma Associate(a: Bytes, b: Bytes, c: Bytes)
    ensures a + (b + c) == a + b + c
  {
  }

  lemma DecodeEnd(s: Bytes, i: nat, out: Bytes)
    requires i == |s| && DecodedBytes(s) == out + DecodedBytes(s[i..])
    ensures out == DecodedBytes(s)
  {
    assert s[i..] == [];
  }

  // ── Round trip ──────────────────────────────────────────────────────────────

  lemma DecodeOne(b: byte, rest: Bytes)
    ensures DecodedBytes(EncodedByte(b) + rest) == [b] + DecodedBytes(rest)
  {
    var e := EncodedByte(b);
    assert DecodedHead(e + rest) == (b, |e|);
    assert (e + rest)[|e|..] == rest;
  }

  lemma {:induction false} DecodeEncodedBytes(s: Bytes, rest: Bytes)
    ensures DecodedBytes(Encoded(s) + rest) == s + DecodedBytes(rest)
    decreases |s|
  {
    hide DecodedBytes, EncodedByte;
    if s == [] {
      assert Encoded(s) + rest == rest;
    } else {
      var init, last := s[..|s| - 1], s[|s| - 1];
      assert Encoded(s) + rest == Encoded(init) + (EncodedByte(last) + rest);
      DecodeEncodedBytes(init, EncodedByte(last) + rest);
      DecodeOne(last, rest);
      assert init + ([last] + DecodedBytes(rest)) == s + DecodedBytes(rest);
    }
  }

  /** Decoding undoes encoding on exactly the strings, that is, on valid UTF-8. */
  lemma RoundTrip(s: Bytes)
    ensures DecodedBytes(Encoded(s)) == s
    ensures Decoded(Encoded(s)) == s <==> Valid(s)
  {
    hide Lossy, Valid;
    DecodeEncodedBytes(s, []);
    assert Encoded(s) + [] == Encoded(s);
    LossyIdentityIffValid(s);
  }

  /** An encoded value is free of every delimiter. */
  lemma {:induction false} EncodedAlphabet(s: Bytes)
    ensures forall i | 0 <= i < |Encoded(s)| :: Unreserved(Encoded(s)[i]) || Encoded(s)[i] == PERCENT
  {
    if s == [] {
    } else {
      EncodedAlphabet(s[..|s| - 1]);
    }
  }

  // ── The tables ──────────────────────────────────────────────────────────────

  /** `b` is this ASCII text. */
  predicate Spells(b: Bytes, text: string) {
    |b| == |text| && forall i | 0 <= i < |b| :: b[i] as int == text[i] as int
  }

  predicate Among(b: byte, first: char, last: char) {
    first as int <= b as int <= last as int
  }

  /** `b` is the digit of value `v`, upper case when `upper`. */
  predicate Digit(b: byte, v: nat, upper: bool) {
    if v < 10 then b as int == '0' as int + v
    else v < 16 && b as int == (if upper then 'A' as int else 'a' as int) + v - 10
  }

  /** Which octets are left alone, and what becomes of the others. */
  lemma EncodingTable(b: byte)
    ensures EncodedByte(b) == [b] <==>
            || Among(b, 'A', 'Z') || Among(b, 'a', 'z') || Among(b, '0', '9')
            || Among(b, '-', '-') || Among(b, '_', '_') || Among(b, '.', '.') || Among(b, '~', '~')
    ensures var e := EncodedByte(b);
            e != [b] ==> |e| == 3 && Spells(e[..1], "%") && Digit(e[1], b / 16, true) && Digit(e[2], b % 16, true)
  {
  }

  /** A text is encoded octet by octet. */
  lemma {:induction false} EncodedConcat(a: Bytes, b: Bytes)
    ensures Encoded(a + b) == Encoded(a) + Encoded(b)
  {
    hide EncodedByte;
    if b == [] {
      assert a + b == a;
    } else {
      var n := |b| - 1;
      assert (a + b)[..|a + b| - 1] == a + b[..n];
      EncodedConcat(a, b[..n]);
    }
  }

  lemma DigitTable(b: byte, v: nat)
    ensures HexVal(b) == Some(v) <==> Digit(b, v, true) || Digit(b, v, false)
  {
  }

  /** `s` begins with a percent sign and the digits of `b`, in either case. */
  predicate Triplet(s: Bytes, b: byte) {
    && |s| >= 3 && Spells(s[..1], "%")
    && (Digit(s[1], b / 16, true) || Digit(s[1], b / 16, false))
    && (Digit(s[2], b % 16, true) || Digit(s[2], b % 16, false))
  }

  /** At the head of an encoded text a triplet stands for its octet, a plus sign for a space, and anything
      else, a percent sign that starts no triplet among it, for itself. */
  lemma HeadMeans(s: Bytes)
    requires s != []
    ensures forall b: byte | Triplet(s, b) :: DecodedHead(s) == (b, 3)
    ensures !(exists b: byte :: Triplet(s, b)) ==>
              DecodedHead(s) == if Spells(s[..1], "+") then (' ' as int, 1) else (s[0], 1)
  {
    if |s| >= 3 {
      forall b: byte ensures Triplet(s, b) <==>
                s[0] == PERCENT && HexVal(s[1]) == Some(b / 16) && HexVal(s[2]) == Some(b % 16)
      {
        DigitTable(s[1], b / 16);
        DigitTable(s[2], b % 16);
      }
      if HexVal(s[1]).Some? && HexVal(s[2]).Some? && s[0] == PERCENT {
        var b := HexVal(s[1]).value * 16 + HexVal(s[2]).value;
        assert Triplet(s, b);
      }
    }
  }

  // ── Encodings cut short ─────────────────────────────────────────────────────

  /** A text without percent signs and replacement characters. */
  predicate Plain(s: Bytes) {
    PERCENT !in s && !HasReplacement(s)
  }

  /** Where a cut encoding ends: behind `k` whole octets and within the triplet of the next. */
  lemma {:induction false} CutWithin(s: Bytes, m: nat) returns (k: nat, p: Bytes)
    requires m < |Encoded(s)|
    ensures k < |s| && Encoded(s)[..m] == Encoded(s[..k]) + p
    ensures p == [] || p == [PERCENT] || (|p| == 2 && p[0] == PERCENT && Unreserved(p[1]))
  {
    var init, last := s[..|s| - 1], s[|s| - 1];
    if m < |Encoded(init)| {
      k, p := CutWithin(init, m);
      assert init[..k] == s[..k];
      assert Encoded(s)[..m] == Encoded(init)[..m];
    } else {
      k, p := |s| - 1, EncodedByte(last)[..m - |Encoded(init)|];
    }
  }

  lemma PartialStands(p: Bytes)
    requires p == [] || p == [PERCENT] || (|p| == 2 && p[0] == PERCENT && Unreserved(p[1]))
    ensures DecodedBytes(p) == p
  {
    if |p| == 2 { assert p[1..] == [p[1]] && p[1..][1..] == []; }
  }

  /** A plain text is not read back from a cut encoding of it. */
  lemma CutIsNoticed(s: Text, m: nat)
    requires Plain(s) && m < |Encoded(s)|
    ensures Decoded(Encoded(s)[..m]) != s
  {
    hide Encoded, DecodedBytes, Lossy, Valid;
    var k, p := CutWithin(s, m);
    DecodeEncodedBytes(s[..k], p);
    PartialStands(p);
    var x := s[..k] + p;
    if p != [] {
      assert x[k] == PERCENT;
      AsciiStays(x, PERCENT);
    } else {
      assert x == s[..k];
      if Valid(x) { LossyKeepsValid(x); } else { InvalidShows(x); }
    }
  }
}
