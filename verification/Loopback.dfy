/** The client's one-shot listener: one bounded read of each request, the target taken from its request
    line, and the login decided by the first request for the callback. */
module Loopback {
  import opened Prelude
  import opened Utf8
  import opened PercentEncoding
  import opened Redirect

  /** Octets one read takes at most; what follows is never read. */
  const READ_LIMIT := 4096

  const SLASH_CALLBACK: Bytes := [0x2F, 0x63, 0x61, 0x6C, 0x6C, 0x62, 0x61, 0x63, 0x6B]
  const GET: Bytes := [0x47, 0x45, 0x54]
  const HTTP_1_1: Bytes := [0x48, 0x54, 0x54, 0x50, 0x2F, 0x31, 0x2E, 0x31, 0x0D, 0x0A]
  const LF: byte := 0x0A
  const CR: byte := 0x0D

  // ── The request line ────────────────────────────────────────────────────────

  /** `lines().next()`: up to the first line feed, without a carriage return before it. */
  function FirstLine(s: Bytes): Bytes {
    var k := Cut(s, LF);
    if k < |s| && k > 0 && s[k - 1] == CR then s[..k - 1] else s[..k]
  }

  function SecondWord(line: Bytes): Bytes {
    var words := Split(line, SPACE);
    if |words| < 2 then [] else words[1]
  }

  /** The target of the request whose first octets were received. */
  function TargetOf(received: Bytes): Bytes {
    SecondWord(FirstLine(Lossy(received)))
  }

  method ReadRequestTarget(received: Bytes) returns (target: Bytes)
    ensures target == TargetOf(received)
  {
    var req := Lossy(received);
    var line := FirstLine(req);
    var words := Split(line, SPACE);
    if |words| < 2 {
      return [];
    }
    return words[1];
  }

  // ── The listener ────────────────────────────────────────────────────────────

  datatype Outcome = LoggedIn(code: Bytes) | StateMismatch | MissingCode | TimedOut

  function Verdict(target: Bytes, expected: Bytes): Outcome {
    match Read(target)
    case (Some(c), Some(s)) => if s == expected then LoggedIn(c) else StateMismatch
    case _ => MissingCode
  }

  predicate ForCallback(received: Bytes) {
    SLASH_CALLBACK <= TargetOf(received)
  }

  /** Request `k` is the first for the callback. */
  predicate FirstForCallback(requests: seq<Bytes>, k: nat) {
    k < |requests| && ForCallback(requests[k]) && forall i | 0 <= i < k :: !ForCallback(requests[i])
  }

  /** The first request for the callback decides; other requests are turned away. `requests` is what was
      read of each request accepted before the deadline. */
  method WaitForCode(requests: seq<Bytes>, expected: Bytes) returns (r: Outcome)
    ensures r == TimedOut <==> forall i | 0 <= i < |requests| :: !ForCallback(requests[i])
    ensures forall k: nat | FirstForCallback(requests, k) :: r == Verdict(TargetOf(requests[k]), expected)
  {
    hide Redirect.Read, TargetOf;
    for i := 0 to |requests|
      invariant forall j | 0 <= j < i :: !ForCallback(requests[j])
    {
      var target := ReadRequestTarget(requests[i]);
      if !(SLASH_CALLBACK <= target) { continue; }
      assert FirstForCallback(requests, i);
      var code, state := ReadTarget(target);
      if code.Some? && state.Some? {
        if state.value == expected {
          return LoggedIn(code.value);
        }
        return StateMismatch;
      }
      return MissingCode;
    }
    return TimedOut;
  }

  /** A login needs a code and the expected state, in that request. */
  lemma VerdictMeans(target: Bytes, expected: Bytes)
    ensures var (code, state) := Read(target); var r := Verdict(target, expected);
            && (r == MissingCode <==> code == None || state == None)
            && (forall c :: r == LoggedIn(c) <==> code == Some(c) && state == Some(expected))
            && (r == StateMismatch <==> code.Some? && state.Some? && state.value != expected)
  {
    hide Read;
  }

  /** The first line ends at the line feed, and a carriage return in front of it is not part of the line. */
  lemma LineMeans(line: Bytes, more: Bytes)
    requires LF !in line
    ensures FirstLine(line) == line == FirstLine(line + [CR] + [LF] + more)
    ensures line == [] || line[|line| - 1] != CR ==> FirstLine(line + [LF] + more) == line
    ensures Spells([CR, LF, SPACE], "\r\n ") && Spells(SLASH_CALLBACK, "/callback")
  {
    hide Cut;
    CutAt(line, LF, more);
    CutAt(line + [CR], LF, more);
    assert line[..|line|] == line && (line + [CR] + [LF] + more)[..|line|] == line;
    assert (line + [LF] + more)[..|line|] == line;
  }

  /** The target stands between the first two spaces of the line, or behind the only one. */
  lemma WordMeans(first: Bytes, target: Bytes, rest: Bytes)
    requires SPACE !in first && SPACE !in target && (rest == [] || rest[0] == SPACE)
    ensures SecondWord(first) == [] && SecondWord(first + [SPACE] + target + rest) == target
  {
    hide Cut, Split;
    SplitAt(first, SPACE, target + rest);
    SplitAt(target, SPACE, if rest == [] then [] else rest[1..]);
    assert first + [SPACE] + target + rest == first + [SPACE] + (target + rest);
    if rest == [] {
      assert target + rest == target;
    } else {
      assert target + rest == target + [SPACE] + rest[1..];
    }
  }

  // ── What arrives of a request ───────────────────────────────────────────────

  /** The octets a URI is written in (section 2 of RFC 3986). */
  predicate UriText(s: Bytes) {
    forall i | 0 <= i < |s| :: 0x21 <= s[i] <= 0x7E
  }

  function Request(target: Bytes, headers: Bytes): Bytes {
    GET + [SPACE] + target + [SPACE] + HTTP_1_1 + headers
  }

  /** One read of at most `limit` octets. */
  function Received(request: Bytes, limit: nat): Bytes {
    if |request| <= limit then request else request[..limit]
  }

  /** The part of the target that a read of `limit` octets covers. */
  function Covered(target: Bytes, limit: nat): Bytes {
    if limit < 4 then [] else if |target| <= limit - 4 then target else target[..limit - 4]
  }

  /** A request line that starts with a complete or cut target, and what the client makes of it. */
  lemma LineReads(t: Bytes, rest: Bytes)
    requires UriText(t) && (rest == [] || rest[0] == SPACE)
    ensures TargetOf(GET + [SPACE] + t + rest) == t
  {
    hide Lossy, Cut, Split, TargetOf;
    var a := GET + [SPACE] + t;
    assert Ascii(a) && LF !in a;
    if rest == [] {
      assert a + [] == a;
      CutLineReads(t);
    } else {
      assert rest == [SPACE] + rest[1..];
      WholeTargetReads(t, rest[1..]);
    }
  }

  lemma CutLineReads(t: Bytes)
    requires Ascii(GET + [SPACE] + t) && LF !in GET + [SPACE] + t && UriText(t)
    ensures TargetOf(GET + [SPACE] + t) == t
  {
    hide Lossy, Cut, Split;
    var a := GET + [SPACE] + t;
    AsciiInFront(a, []);
    assert a + [] == a && a[..|a|] == a;
    assert Lossy([]) == [] by { LossyUnfold([]); }
    CutAt(a, LF, []);
    SplitAt(GET, SPACE, t);
    SplitAt(t, SPACE, []);
  }

  lemma WholeTargetReads(t: Bytes, tail: Bytes)
    requires Ascii(GET + [SPACE] + t) && LF !in GET + [SPACE] + t && UriText(t)
    ensures TargetOf(GET + [SPACE] + t + ([SPACE] + tail)) == t
  {
    hide Lossy, Cut, Split;
    var a := GET + [SPACE] + t;
    AsciiInFront(a, [SPACE] + tail);
    AsciiInFront([SPACE], tail);
    var x := Lossy(tail);
    LineWithTail(a, x);
    var line := FirstLine(a + [SPACE] + x);
    assert a + [SPACE] + x == a + ([SPACE] + x);
    var y :| line == a + [SPACE] + y;
    assert line == GET + [SPACE] + (t + [SPACE] + y);
    SplitAt(GET, SPACE, t + [SPACE] + y);
    SplitAt(t, SPACE, y);
  }

  lemma LineWithTail(a: Bytes, x: Bytes)
    requires LF !in a
    ensures exists y :: FirstLine(a + [SPACE] + x) == a + [SPACE] + y
  {
    var s := a + [SPACE] + x;
    CutBehind(a + [SPACE], x);
    hide Cut;
    var k := Cut(s, LF);
    if k < |s| && k > 0 && s[k - 1] == CR {
      assert k - 1 >= |a| + 1;
      assert s[..k - 1] == a + [SPACE] + s[|a| + 1..k - 1];
    } else {
      assert s[..k] == a + [SPACE] + s[|a| + 1..k];
    }
  }

  lemma CutBehind(a: Bytes, x: Bytes)
    requires LF !in a
    ensures Cut(a + x, LF) >= |a|
  {
    hide Cut;
    assert forall i | 0 <= i < |a| :: (a + x)[i] in a;
  }

  /** The client sees as much of the target as the read covers behind the method. */
  lemma TargetReads(target: Bytes, headers: Bytes, limit: nat)
    requires UriText(target)
    ensures TargetOf(Received(Request(target, headers), limit)) == Covered(target, limit)
  {
    hide TargetOf;
    var request := Request(target, headers);
    if limit < 4 {
      assert Received(request, limit) == GET[..limit];
      ShortReads(limit);
    } else if |target| <= limit - 4 {
      var rest := Received(request, limit)[4 + |target|..];
      assert Received(request, limit) == GET + [SPACE] + target + rest;
      LineReads(target, rest);
    } else {
      assert Received(request, limit) == GET + [SPACE] + target[..limit - 4] + [];
      LineReads(target[..limit - 4], []);
    }
  }

  lemma ShortReads(limit: nat)
    requires limit < 4
    ensures TargetOf(GET[..limit]) == []
  {
    hide Lossy, Cut, Split;
    var a := GET[..limit];
    AsciiInFront(a, []);
    assert a + [] == a && Lossy([]) == [] by { LossyUnfold([]); }
    CutAt(a, LF, []);
    SplitAt(a, SPACE, []);
  }

  // ── Round trip over the wire ────────────────────────────────────────────────

  /** The server's redirect to `path` is followed, and the client reads at most `limit` octets of the
      request. */
  function ClientReads(path: Bytes, code: Bytes, state: Bytes, headers: Bytes, limit: nat): (Option<Bytes>,
                       Option<Bytes>)
  {
    Read(TargetOf(Received(Request(Requested(path, code, state), headers), limit)))
  }

  predicate Arrives(path: Bytes, code: Bytes, state: Bytes, headers: Bytes, limit: nat) {
    ClientReads(path, code, state, headers, limit) == Sent(code, state)
  }

  /** The read covers the method and the whole target. */
  predicate Fits(path: Bytes, code: Bytes, state: Bytes, limit: nat) {
    4 + |Requested(path, code, state)| <= limit
  }

  predicate NoQueryNoFragment(path: Bytes) {
    QUESTION !in path && HASH !in path
  }

  lemma RequestedIsUri(path: Bytes, code: Bytes, state: Bytes)
    requires UriText(path)
    ensures UriText(Requested(path, code, state))
  {
    hide Cut, Encoded;
    EncodedAlphabet(code);
    EncodedAlphabet(state);
  }

  /** What is read of the query when the target was cut inside it. */
  lemma CutQueryReads(code: Text, state: Text, j: nat)
    requires j < |Query(code, state)| && Plain(code) && Plain(state)
    ensures var pairs := Split(Query(code, state)[..j], AMPERSAND);
            (LastValue(pairs, CODE), LastValue(pairs, STATE)) != Sent(code, state)
  {
    hide Encoded, Decoded, Split, Valid, LastValue, Plain;
    EncodedIsPlain(code);
    EncodedIsPlain(state);
    var first, second := CODE + [EQUALS] + Encoded(code), STATE + [EQUALS] + Encoded(state);
    var q := Query(code, state)[..j];
    if j <= |first| {
      assert q == first[..j];
      assert AMPERSAND !in first && AMPERSAND !in q;
      SplitAt(q, AMPERSAND, []);
      CutPairReads(CODE, code, j);
      CutPairIsNotState(code, j);
    } else {
      var j' := j - |first| - 1;
      assert q == first + [AMPERSAND] + second[..j'];
      assert AMPERSAND !in first && AMPERSAND !in second && AMPERSAND !in second[..j'];
      SplitAt(first, AMPERSAND, second[..j']);
      SplitAt(second[..j'], AMPERSAND, []);
      CutPairReads(STATE, state, j');
      assert state != [] && j' < |second|;
      assert [first] + [second[..j']] == [first, second[..j']];
      LastOfTwo(first, second[..j'], code);
    }
  }

  /** A pair whose value was cut does not yield the value. */
  lemma CutPairReads(key: Bytes, v: Text, j: nat)
    requires EQUALS !in key && Plain(v) && j <= |key + [EQUALS] + Encoded(v)|
    ensures var pair := (key + [EQUALS] + Encoded(v))[..j];
            LastValue([pair], key) == Some(v) ==> j == |key + [EQUALS] + Encoded(v)|
  {
    hide Encoded, Decoded, Valid, Cut, Plain;
    var whole := key + [EQUALS] + Encoded(v);
    var pair := whole[..j];
    var pairs: seq<Bytes> := [pair];
    assert pairs[..0] == [];
    if j <= |key| {
      assert pair == key[..j];
      CutAt(pair, EQUALS, []);
      assert Named(pair) == None;
      assert LastValue(pairs, key) == LastValue(pairs[..0], key) == None;
    } else {
      var m := j - |key| - 1;
      assert pair == key + [EQUALS] + Encoded(v)[..m];
      CutAt(key, EQUALS, Encoded(v)[..m]);
      assert pair[..|key|] == key && pair[|key| + 1..] == Encoded(v)[..m];
      if m < |Encoded(v)| { CutIsNoticed(v, m); }
    }
  }

  lemma CutPairIsNotState(code: Text, j: nat)
    requires j <= |CODE + [EQUALS] + Encoded(code)|
    ensures LastValue([(CODE + [EQUALS] + Encoded(code))[..j]], STATE) == None
  {
    hide Encoded, Decoded, Valid, Cut;
    var pair := (CODE + [EQUALS] + Encoded(code))[..j];
    if j <= |CODE| {
      assert pair == CODE[..j];
      CutAt(pair, EQUALS, []);
    } else {
      assert pair == CODE + [EQUALS] + Encoded(code)[..j - 5];
      CutAt(CODE, EQUALS, Encoded(code)[..j - 5]);
      assert pair[..|CODE|] == CODE;
    }
  }

  lemma LastOfTwo(first: Bytes, second: Bytes, code: Text)
    requires first == CODE + [EQUALS] + Encoded(code)
    ensures LastValue([first, second], STATE) == LastValue([second], STATE)
  {
    hide Encoded, Decoded, Valid, Named;
    CutPairIsNotState(code, |first|);
    assert first[..|first|] == first;
    assert [first, second][..1] == [first];
  }

  /** A cut target does not yield what was sent. */
  lemma CutTargetReads(path: Bytes, code: Text, state: Text, n: nat)
    requires NoQueryNoFragment(path) && Plain(code) && Plain(state) && n < |Requested(path, code, state)|
    ensures Read(Requested(path, code, state)[..n]) != Sent(code, state)
  {
    hide Cut, Split, Query, LastValue, Valid, Requested, Plain;
    Unfragmented(path, code, state);
    QueryIsPlain(code, state);
    var q := Query(code, state);
    var cut := Requested(path, code, state)[..n];
    if n <= |path| {
      assert cut == path[..n];
      SplitAt(cut, QUESTION, []);
      NoPairs();
    } else {
      var j := n - |path| - 1;
      assert cut == path + [QUESTION] + q[..j];
      SplitAt(path, QUESTION, q[..j]);
      SplitAt(q[..j], QUESTION, []);
      CutQueryReads(code, state, j);
    }
  }

  lemma NoPairs()
    ensures LastValue([], CODE) == None && LastValue([], STATE) == None
  {
  }

  /** Code and state arrive whenever the redirect URI has neither query nor fragment and the read covers
      the target. */
  lemma FitsArrives(path: Bytes, code: Text, state: Text, headers: Bytes, limit: nat)
    requires UriText(path) && NoQueryNoFragment(path) && Fits(path, code, state, limit)
    ensures Arrives(path, code, state, headers, limit)
  {
    hide Read, Requested, Received, TargetOf, Valid;
    RequestedIsUri(path, code, state);
    TargetReads(Requested(path, code, state), headers, limit);
    ReadBack(path, code, state);
  }

  /** For texts without percent signs and replacement characters, exactly then: a longer request line
      is cut and the client takes a wrong code or state, or finds none. */
  lemma ArrivesExactly(path: Bytes, code: Text, state: Text, headers: Bytes, limit: nat)
    requires UriText(path) && NoQueryNoFragment(path) && Plain(code) && Plain(state)
    ensures Arrives(path, code, state, headers, limit) <==> Fits(path, code, state, limit)
  {
    hide Read, Requested, Received, TargetOf, Plain, Valid;
    if Fits(path, code, state, limit) {
      FitsArrives(path, code, state, headers, limit);
    } else {
      RequestedIsUri(path, code, state);
      Unfragmented(path, code, state);
      var target := Requested(path, code, state);
      TargetReads(target, headers, limit);
      var n := if limit < 4 then 0 else limit - 4;
      assert Covered(target, limit) == target[..n];
      CutTargetReads(path, code, state, n);
    }
  }

  lemma {:induction false} EncodingGrows(s: Bytes)
    ensures |Encoded(s)| >= |s|
  {
    if s == [] {
    } else {
      EncodingGrows(s[..|s| - 1]);
    }
  }

  /** No redirect URI lets a state of a whole read buffer or more survive. */
  lemma OverlongStateIsLost(path: Bytes, code: Text, state: Text, headers: Bytes)
    requires UriText(path) && NoQueryNoFragment(path) && Plain(code) && Plain(state) && |state| >= READ_LIMIT
    ensures !Arrives(path, code, state, headers, READ_LIMIT)
  {
    hide Encoded, Arrives, Requested, Plain, Valid;
    ArrivesExactly(path, code, state, headers, READ_LIMIT);
    Unfragmented(path, code, state);
    EncodingGrows(state);
  }

  function OneLetter(): (t: Text)
    ensures t == [0x61]
  {
    AsciiIsValid([0x61]);
    [0x61]
  }

  function OtherLetter(): (t: Text)
    ensures t == [0x62]
  {
    AsciiIsValid([0x62]);
    [0x62]
  }

  lemma LetterEncodes(t: Text)
    requires t == [0x61] || t == [0x62]
    ensures Encoded(t) == t && |Query(t, [])| == 6
  {
    assert t[..0] == [] && Encoded([]) == [];
  }

  lemma EncodedLength(s: Bytes)
    requires s != []
    ensures Encoded(s) != []
  {
  }

  lemma RequestedLength(path: Bytes, code: Bytes, state: Bytes)
    ensures HASH in path ==> Cut(path, HASH) < |path| && Requested(path, code, state) == path[..Cut(path, HASH)]
    ensures HASH !in path ==> |Requested(path, code, state)| == |path| + 1 + |Query(code, state)|
  {
    hide Cut, Query;
    if HASH in path {
      CutInside(path, HASH, [QUESTION] + Query(code, state));
      assert path + [QUESTION] + Query(code, state) == path + ([QUESTION] + Query(code, state));
    } else {
      Unfragmented(path, code, state);
    }
  }

  lemma LongerDoesNotFit(path: Bytes, code: Text, state: Text, limit: nat)
    requires code != [] && !Fits(path, OneLetter(), [], limit)
    ensures !Fits(path, code, state, limit)
  {
    hide Encoded, Cut, Requested, Valid;
    RequestedLength(path, OneLetter(), []);
    RequestedLength(path, code, state);
    LetterEncodes(OneLetter());
    EncodedLength(code);
  }

  /** With a query or fragment in the redirect URI two codes of the same length are not told apart. */
  lemma LettersAreConfused(path: Bytes, headers: Bytes, limit: nat)
    requires UriText(path) && !NoQueryNoFragment(path) && Fits(path, OneLetter(), [], limit)
    ensures Fits(path, OtherLetter(), [], limit)
    ensures !(Arrives(path, OneLetter(), [], headers, limit) && Arrives(path, OtherLetter(), [], headers, limit))
  {
    hide Encoded, Cut, Requested, Read, TargetOf, Received, Query;
    var a: Text, b: Text := OneLetter(), OtherLetter();
    RequestedLength(path, a, []);
    RequestedLength(path, b, []);
    LetterEncodes(a);
    LetterEncodes(b);
    RequestedIsUri(path, a, []);
    RequestedIsUri(path, b, []);
    TargetReads(Requested(path, a, []), headers, limit);
    TargetReads(Requested(path, b, []), headers, limit);
    NothingArrives(path, a, [], b, []);
  }

  function PercentSign(): (t: Text)
    ensures t == [PERCENT]
  {
    AsciiIsValid([PERCENT]);
    [PERCENT]
  }

  lemma PercentEncodes()
    ensures Encoded([PERCENT]) == [PERCENT, 0x32, 0x35] && Decoded([PERCENT]) == [PERCENT]
  {
    assert [PERCENT][..0] == [] && Encoded([]) == [] && EncodedByte(PERCENT) == [PERCENT, 0x32, 0x35];
    PartialStands([PERCENT]);
    RoundTrip(PercentSign());
  }

  /** Why percent signs are excepted: a state that ends in one may survive although it was cut, because
      the percent sign left over from its triplet stands for itself. */
  lemma CutByChance(path: Bytes, headers: Bytes)
    requires UriText(path) && NoQueryNoFragment(path)
    ensures |Requested(path, OneLetter(), PercentSign())| >= 2
    ensures var limit := |Requested(path, OneLetter(), PercentSign())| + 2;
            !Fits(path, OneLetter(), PercentSign(), limit) && Arrives(path, OneLetter(), PercentSign(), headers, limit)
  {
    hide Decoded, Encoded, Requested, TargetOf, Received, Split, Valid, Cut, Named;
    var a, p := OneLetter(), PercentSign();
    RequestedIsUri(path, a, p);
    Unfragmented(path, a, p);
    PercentEncodes();
    LetterEncodes(a);
    var target, q := Requested(path, a, p), Query(a, p);
    var limit := |target| + 2;
    TargetReads(target, headers, limit);
    var first, second := CODE + [EQUALS] + Encoded(a), STATE + [EQUALS] + [PERCENT];
    assert target[..limit - 4] == path + [QUESTION] + (first + [AMPERSAND] + second);
    assert AMPERSAND !in first && AMPERSAND !in second && QUESTION !in first + [AMPERSAND] + second;
    SplitAt(path, QUESTION, first + [AMPERSAND] + second);
    SplitAt(first + [AMPERSAND] + second, QUESTION, []);
    SplitAt(first, AMPERSAND, second);
    SplitAt(second, AMPERSAND, []);
    assert [first] + [second] == [first, second];
    PairReads(CODE, a);
    CutAt(STATE, EQUALS, [PERCENT]);
    assert Named(second) == Some((STATE, [PERCENT])) by { SplitPair(); }
    assert LastValue([first], CODE) == Some(a);
    assert [first, second][..1] == [first];
  }

  lemma SplitPair()
    ensures Named(STATE + [EQUALS] + [PERCENT]) == Some((STATE, [PERCENT]))
  {
    hide Cut;
    CutAt(STATE, EQUALS, [PERCENT]);
    assert (STATE + [EQUALS] + [PERCENT])[..|STATE|] == STATE;
  }

  predicate FittingArrives(path: Bytes, code: Bytes, state: Bytes, headers: Bytes, limit: nat) {
    Fits(path, code, state, limit) ==> Arrives(path, code, state, headers, limit)
  }

  /** Everything that fits arrives, exactly when the redirect URI has neither query nor fragment, or is so
      long that not even a code of one letter fits. Codes are never empty. */
  lemma RecoversIff(path: Bytes, headers: Bytes, limit: nat)
    requires UriText(path)
    ensures (forall code: Text, state: Text | code != [] :: FittingArrives(path, code, state, headers, limit))
       <==> NoQueryNoFragment(path) || !Fits(path, OneLetter(), [], limit)
  {
    if NoQueryNoFragment(path) {
      forall code: Text, state: Text | code != [] ensures FittingArrives(path, code, state, headers, limit) {
        if Fits(path, code, state, limit) { FitsArrives(path, code, state, headers, limit); }
      }
    } else {
      hide Requested, Read, TargetOf, Received;
      var a: Text, b: Text := OneLetter(), OtherLetter();
      if Fits(path, a, [], limit) {
        LettersAreConfused(path, headers, limit);
        assert !(FittingArrives(path, a, [], headers, limit) && FittingArrives(path, b, [], headers, limit));
      } else {
        forall code: Text, state: Text | code != [] ensures !Fits(path, code, state, limit) {
          LongerDoesNotFit(path, code, state, limit);
        }
      }
    }
  }

  /** A login whose redirect is the first callback request, and fits the read, ends with the server's
      code exactly when the server echoed the state the client chose; an empty state is never accepted. */
  lemma LoginEnds(path: Bytes, code: Text, state: Text, expected: Bytes, headers: Bytes, limit: nat)
    requires UriText(path) && NoQueryNoFragment(path) && Fits(path, code, state, limit)
    ensures var received := Received(Request(Requested(path, code, state), headers), limit);
            && (SLASH_CALLBACK <= path ==> ForCallback(received))
            && Verdict(TargetOf(received), expected) ==
               if state == [] then MissingCode else if state == expected then LoggedIn(code) else StateMismatch
  {
    hide Read, Query, Requested, Received, TargetOf, Valid;
    FitsArrives(path, code, state, headers, limit);
    RequestedIsUri(path, code, state);
    TargetReads(Requested(path, code, state), headers, limit);
    Unfragmented(path, code, state);
  }
}
