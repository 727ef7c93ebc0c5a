/** UTF-8 text as the byte strings the original programs hold, and the lossy decoder they use
    (`String::from_utf8_lossy`): every maximal ill-formed subpart becomes one U+FFFD.
    The well-formed ranges are those of table 3-7 of the Unicode Standard. */
module Utf8 {
  import opened Prelude

  /** U+FFFD, the replacement character. */
  const FFFD: Bytes := [0xEF, 0xBF, 0xBD]

  /** Length of a character led by `b`, 0 when no character starts with `b`. */
  function CharLen(b: byte): nat {
    if b < 0x80 then 1
    else if 0xC2 <= b <= 0xDF then 2
    else if 0xE0 <= b <= 0xEF then 3
    else if 0xF0 <= b <= 0xF4 then 4
    else 0
  }

  predicate Continuation(b: byte) {
    0x80 <= b <= 0xBF
  }

  predicate SecondOk(lead: byte, b: byte) {
    && Continuation(b)
    && (lead == 0xE0 ==> 0xA0 <= b)
    && (lead == 0xED ==> b <= 0x9F)
    && (lead == 0xF0 ==> 0x90 <= b)
    && (lead == 0xF4 ==> b <= 0x8F)
  }

  /** What the decoder finds at the head of its input: one character, or one ill-formed subpart. */
  datatype Chunk = Chunk(wellFormed: bool, len: nat)

  function Head(s: Bytes): (c: Chunk)
    requires s != []
    ensures 1 <= c.len <= 4 && c.len <= |s|
  {
    var need := CharLen(s[0]);
    if need <= 1 then Chunk(need == 1, 1)
    else if |s| < 2 || !SecondOk(s[0], s[1]) then Chunk(false, 1)
    else if need == 2 then Chunk(true, 2)
    else if |s| < 3 || !Continuation(s[2]) then Chunk(false, 2)
    else if need == 3 then Chunk(true, 3)
    else if |s| < 4 || !Continuation(s[3]) then Chunk(false, 3)
    else Chunk(true, 4)
  }

  predicate Valid(s: Bytes) {
    s == [] || (Head(s).wellFormed && Valid(s[Head(s).len..]))
  }

  /** A Rust string: a byte string known to be UTF-8. */
  type Text = s: Bytes | Valid(s) witness []

  /** What one chunk decodes to. */
  function Shown(s: Bytes): (c: Bytes)
    requires s != []
    ensures c != []
  {
    if Head(s).wellFormed then s[..Head(s).len] else FFFD
  }

  function Lossy(s: Bytes): (t: Bytes) {
    if s == [] then [] else Shown(s) + Lossy(s[Head(s).len..])
  }

  predicate IsCharBoundary(t: Bytes, i: nat) {
    i == 0 || i == |t| || (i < |t| && !Continuation(t[i]))
  }

  // ── Chunks ──────────────────────────────────────────────────────────────────

  /** A well-formed head does not depend on what follows it. */
  lemma HeadExtends(s: Bytes, t: Bytes)
    requires s != [] && (Head(s).wellFormed || Head(s).len < |s|)
    ensures Head(s + t) == Head(s) && Shown(s + t) == Shown(s)
  {
  }

  /** One decoded chunk followed by text is read back as that chunk. */
  lemma ShownIsChar(s: Bytes, t: Bytes)
    requires s != []
    ensures Head(Shown(s) + t) == Chunk(true, |Shown(s)|)
    ensures (Shown(s) + t)[|Shown(s)|..] == t
  {
  }

  // ── Lossy decoding ──────────────────────────────────────────────────────────

  lemma {:induction false} LossyIsValid(s: Bytes)
    ensures Valid(Lossy(s))
  {
    if s == [] {
    } else {
      var rest := s[Head(s).len..];
      LossyIsValid(rest);
      ShownIsChar(s, Lossy(rest));
    }
  }

  lemma {:induction false} LossyKeepsValid(s: Bytes)
    requires Valid(s)
    ensures Lossy(s) == s
  {
    if s == [] {
    } else {
      LossyKeepsValid(s[Head(s).len..]);
      assert s == s[..Head(s).len] + s[Head(s).len..];
    }
  }

  lemma {:induction false} ValidConcat(a: Bytes, b: Bytes)
    requires Valid(a) && Valid(b)
    ensures Valid(a + b)
  {
    if a == [] {
      assert a + b == b;
    } else {
      HeadExtends(a, b);
      hide Head;
      assert (a + b)[Head(a).len..] == a[Head(a).len..] + b;
      ValidConcat(a[Head(a).len..], b);
    }
  }

  /** The lossy decoder is the identity on UTF-8 and on nothing else. */
  lemma LossyIdentityIffValid(s: Bytes)
    ensures Lossy(s) == s <==> Valid(s)
  {
    LossyIsValid(s);
    if Valid(s) { LossyKeepsValid(s); }
  }

  function DecodeUtf8(s: Bytes): Text {
    LossyIsValid(s); Lossy(s)
  }

  lemma EndsWithTail(a: Bytes, b: Bytes, x: Bytes)
    requires EndsWith(b, x)
    ensures EndsWith(a + b, x)
  {
    assert (a + b)[|a + b| - |x|..] == b[|b| - |x|..];
  }

  lemma LossyStep(s: Bytes, t: Bytes)
    requires s != [] && (Head(s).wellFormed || Head(s).len < |s|)
    ensures Lossy(s + t) == Shown(s) + Lossy(s[Head(s).len..] + t)
  {
    HeadExtends(s, t);
    assert (s + t)[Head(s).len..] == s[Head(s).len..] + t;
  }

  /** Bytes whose decoding does not end in U+FFFD end on a character: more bytes only add to the text. */
  lemma {:induction false} LossyExtends(s: Bytes, t: Bytes)
    requires !EndsWith(Lossy(s), FFFD)
    ensures Lossy(s + t) == Lossy(s) + Lossy(t)
  {
    hide Head, Shown;
    if s == [] {
      assert s + t == t;
    } else {
      NotTruncated(s);
      var rest := s[Head(s).len..];
      if EndsWith(Lossy(rest), FFFD) {
        EndsWithTail(Shown(s), Lossy(rest), FFFD);
      }
      LossyExtends(rest, t);
      LossyStep(s, t);
      assert Shown(s) + (Lossy(rest) + Lossy(t)) == (Shown(s) + Lossy(rest)) + Lossy(t);
    }
  }

  lemma NotTruncated(s: Bytes)
    requires s != [] && !EndsWith(Lossy(s), FFFD)
    ensures Head(s).wellFormed || Head(s).len < |s|
  {
    hide Head, Lossy;
    assert FFFD + [] == FFFD;
    if !Head(s).wellFormed && Head(s).len == |s| {
      LossyUnfold(s);
      LossyUnfold([]);
    }
  }

  /** A UTF-8 prefix of a decoded text is itself the decoding of a prefix of the bytes. */
  lemma {:induction false} LossyPrefix(s: Bytes, p: Bytes) returns (k: nat)
    requires Valid(p) && p <= Lossy(s)
    ensures k <= |s| && Lossy(s[..k]) == p
    ensures Lossy(s) == p + Lossy(s[k..])
  {
    LossyUnfold(s);
    LossyUnfold([]);
    if p == [] {
      k := 0;
      assert s[0..] == s && s[..0] == [];
    } else {
      hide Head, Shown, Lossy, Valid;
      var n, c := Head(s).len, Shown(s);
      ShownIsChar(s, Lossy(s[n..]));
      SameLead(p, c, Lossy(s[n..]));
      var k' := LossyPrefix(s[n..], p[|c|..]);
      k := n + k';
      LossyCut(s, k);
      assert s[n..][k'..] == s[k..];
      Reassociate(c, p, Lossy(s[k..]));
    }
  }

  lemma Reassociate(c: Bytes, p: Bytes, t: Bytes)
    requires |c| <= |p| && p[..|c|] == c
    ensures c + p[|c|..] == p
    ensures c + (p[|c|..] + t) == p + t
  {
  }

  lemma LossyUnfold(s: Bytes)
    ensures s == [] ==> Lossy(s) == []
    ensures s != [] ==> Lossy(s) == Shown(s) + Lossy(s[Head(s).len..])
  {
  }

  lemma LossyCut(s: Bytes, k: nat)
    requires s != [] && Head(s).len <= k <= |s|
    ensures Lossy(s[..k]) == Shown(s) + Lossy(s[Head(s).len..][..k - Head(s).len])
  {
    HeadCut(s, k);
    assert s[..k][Head(s).len..] == s[Head(s).len..][..k - Head(s).len];
  }

  lemma HeadCut(s: Bytes, k: nat)
    requires s != [] && Head(s).len <= k <= |s|
    ensures Head(s[..k]) == Head(s) && Shown(s[..k]) == Shown(s)
  {
    assert s[..k][..Head(s).len] == s[..Head(s).len];
  }

  lemma SameLead(p: Bytes, c: Bytes, t: Bytes)
    requires p != [] && Valid(p) && p <= c + t
    requires c != [] && Head(c + t) == Chunk(true, |c|)
    ensures |c| <= |p| && p[..|c|] == c
    ensures Valid(p[|c|..]) && p[|c|..] <= t
  {
    HeadLen(p, c + t);
    hide Head;
    assert p == (c + t)[..|p|];
  }

  lemma HeadLen(p: Bytes, s: Bytes)
    requires p != [] && p <= s && Head(p).wellFormed && Head(s).wellFormed
    ensures Head(p).len == Head(s).len
  {
  }

  /** A UTF-8 prefix of UTF-8 text ends on a character boundary. */
  lemma PrefixIsBoundary(p: Bytes, t: Bytes)
    requires Valid(t)
    ensures IsCharBoundary(p + t, |p|)
  {
  }

  // ── What decoding cannot hide ───────────────────────────────────────────────

  predicate Ascii(s: Bytes) {
    forall i | 0 <= i < |s| :: s[i] < 0x80
  }

  predicate ReplacedAt(t: Bytes, i: nat) {
    i + 2 < |t| && t[i] == 0xEF && t[i + 1] == 0xBF && t[i + 2] == 0xBD
  }

  /** U+FFFD occurs in the text. */
  predicate HasReplacement(t: Bytes) {
    exists i | 0 <= i < |t| :: ReplacedAt(t, i)
  }

  lemma ReplacementBehind(a: Bytes, b: Bytes)
    requires HasReplacement(b)
    ensures HasReplacement(a + b)
  {
    var i :| 0 <= i < |b| && ReplacedAt(b, i);
    assert ReplacedAt(a + b, |a| + i);
  }

  /** Bytes that are not UTF-8 leave a replacement character behind. */
  lemma {:induction false} InvalidShows(s: Bytes)
    requires !Valid(s)
    ensures HasReplacement(Lossy(s))
  {
    hide Head;
    var rest := Lossy(s[Head(s).len..]);
    if Head(s).wellFormed {
      InvalidShows(s[Head(s).len..]);
      ReplacementBehind(Shown(s), rest);
    } else {
      assert ReplacedAt(Shown(s) + rest, 0);
    }
  }

  /** An ASCII byte of the input is a byte of the text. */
  lemma {:induction false} AsciiStays(s: Bytes, b: byte)
    requires b in s && b < 0x80
    ensures b in Lossy(s)
  {
    var n := Head(s).len;
    if b in s[..n] { HeadKeepsAscii(s, b); }
    if b in s[n..] {
      AsciiStays(s[n..], b);
    } else {
      assert s == s[..n] + s[n..];
    }
  }

  /** An ill-formed subpart that swallows more than its first byte swallows no ASCII. */
  lemma HeadKeepsAscii(s: Bytes, b: byte)
    requires s != [] && b < 0x80 && b in s[..Head(s).len]
    ensures b in Shown(s)
  {
  }

  lemma {:induction false} AsciiIsValid(s: Bytes)
    requires Ascii(s)
    ensures Valid(s)
  {
    if s == [] {
    } else {
      assert Head(s) == Chunk(true, 1);
      AsciiIsValid(s[1..]);
    }
  }

  lemma AsciiEnd(s: Bytes)
    requires Ascii(s)
    ensures !EndsWith(s, FFFD)
  {
    if |s| >= 3 { assert s[|s| - 3..][0] == s[|s| - 3]; }
  }

  /** ASCII at the front decodes to itself, whatever follows. */
  lemma AsciiInFront(a: Bytes, b: Bytes)
    requires Ascii(a)
    ensures Lossy(a + b) == a + Lossy(b)
  {
    hide Lossy, Valid;
    AsciiIsValid(a);
    LossyKeepsValid(a);
    AsciiEnd(a);
    LossyExtends(a, b);
  }
}
