/** The redirect of a login: the URL the identity server prints, and what the desktop client reads back
    from the request the browser makes. Splitting at an ASCII delimiter is splitting the UTF-8 bytes. */
module Redirect {
  import opened Prelude
  import opened Utf8
  import opened PercentEncoding

  const QUESTION: byte := 0x3F
  const AMPERSAND: byte := 0x26
  const EQUALS: byte := 0x3D
  const HASH: byte := 0x23
  const CODE: Bytes := [0x63, 0x6F, 0x64, 0x65]
  const STATE: Bytes := [0x73, 0x74, 0x61, 0x74, 0x65]

  // ── The server's side ───────────────────────────────────────────────────────

  function Query(code: Bytes, state: Bytes): Bytes {
    CODE + [EQUALS] + Encoded(code) + if state == [] then [] else [AMPERSAND] + STATE + [EQUALS] + Encoded(state)
  }

  /** The Location of a successful login. */
  method RedirectUrl(uri: Bytes, code: Bytes, state: Bytes) returns (target: Bytes)
    ensures target == uri + [QUESTION] + Query(code, state)
  {
    var encoded := UrlEncode(code);
    target := uri + [QUESTION] + CODE + [EQUALS] + encoded;
    assert target == uri + [QUESTION] + (CODE + [EQUALS] + Encoded(code));
    if state != [] {
      target := target + [AMPERSAND] + STATE + [EQUALS];
      encoded := UrlEncode(state);
      target := target + encoded;
    }
  }

  /** The text in front of the code is `?code=`, and `&state=` stands in front of a state that is not empty. */
  lemma UrlMeans(uri: Bytes, code: Bytes, state: Bytes) returns (ask: Bytes, also: Bytes)
    ensures Spells(ask, "?code=") && Spells(also, "&state=")
    ensures uri + [QUESTION] + Query(code, state) ==
            uri + ask + Encoded(code) + if state == [] then [] else also + Encoded(state)
  {
    hide Encoded;
    ask, also := [QUESTION] + CODE + [EQUALS], [AMPERSAND] + STATE + [EQUALS];
    assert Query(code, state) ==
           CODE + [EQUALS] + Encoded(code) + if state == [] then [] else also + Encoded(state);
    assert uri + [QUESTION] + (CODE + [EQUALS] + Encoded(code)) == uri + ask + Encoded(code);
  }

  // ── Splitting ───────────────────────────────────────────────────────────────

  /** Where `d` first occurs, or the length of `s`. */
  function Cut(s: Bytes, d: byte): (k: nat)
    ensures k <= |s| && (forall i | 0 <= i < k :: s[i] != d) && (k < |s| ==> s[k] == d)
  {
    if s == [] || s[0] == d then 0 else 1 + Cut(s[1..], d)
  }

  function Split(s: Bytes, d: byte): (parts: seq<Bytes>)
    ensures parts != []
  {
    var k := Cut(s, d);
    if k == |s| then [s] else [s[..k]] + Split(s[k + 1..], d)
  }

  lemma CutAt(a: Bytes, d: byte, b: Bytes)
    requires d !in a
    ensures Cut(a, d) == |a| && Cut(a + [d] + b, d) == |a|
  {
    var s := a + [d] + b;
    hide Cut;
    assert s[|a|] == d;
    assert forall i | 0 <= i < |a| :: s[i] in a;
  }

  lemma SplitAt(a: Bytes, d: byte, b: Bytes)
    requires d !in a
    ensures Split(a, d) == [a] && Split(a + [d] + b, d) == [a] + Split(b, d)
  {
    CutAt(a, d, b);
    hide Cut;
    assert (a + [d] + b)[..|a|] == a && (a + [d] + b)[|a| + 1..] == b;
  }

  // ── The browser ─────────────────────────────────────────────────────────────

  /** A request never carries the fragment (section 3.5 of RFC 3986). */
  function WithoutFragment(url: Bytes): Bytes {
    url[..Cut(url, HASH)]
  }

  // ── The client's side ───────────────────────────────────────────────────────

  /** A `key=value` pair; anything after the first `=` is the value. */
  function Named(pair: Bytes): Option<(Bytes, Bytes)> {
    var k := Cut(pair, EQUALS);
    if k == |pair| then None else Some((pair[..k], pair[k + 1..]))
  }

  /** The decoded value of the last pair with this key. */
  function LastValue(pairs: seq<Bytes>, key: Bytes): Option<Bytes> {
    if pairs == [] then None else
    match Named(pairs[|pairs| - 1])
    case Some((k, v)) => if k == key then Some(Decoded(v)) else LastValue(pairs[..|pairs| - 1], key)
    case None => LastValue(pairs[..|pairs| - 1], key)
  }

  /** The pairs of the query: what stands between the first two question marks. */
  function Pairs(target: Bytes): seq<Bytes> {
    var parts := Split(target, QUESTION);
    if |parts| < 2 then [] else Split(parts[1], AMPERSAND)
  }

  function Read(target: Bytes): (Option<Bytes>, Option<Bytes>) {
    (LastValue(Pairs(target), CODE), LastValue(Pairs(target), STATE))
  }

  method ReadTarget(target: Bytes) returns (code: Option<Bytes>, state: Option<Bytes>)
    ensures (code, state) == Read(target)
  {
    hide Cut, Split, Decoded;
    code, state := None, None;
    var parts := Split(target, QUESTION);
    if |parts| < 2 {
      return;
    }
    var pairs := Split(parts[1], AMPERSAND);
    for i := 0 to |pairs|
      invariant code == LastValue(pairs[..i], CODE) && state == LastValue(pairs[..i], STATE)
    {
      assert pairs[..i + 1][..i] == pairs[..i];
      var pair := Named(pairs[i]);
      if pair.Some? {
        if pair.value.0 == CODE {
          code := DecodeInto(pair.value.1);
        } else if pair.value.0 == STATE {
          state := DecodeInto(pair.value.1);
        }
      }
    }
    assert pairs[..|pairs|] == pairs;
  }

  method DecodeInto(v: Bytes) returns (t: Option<Bytes>)
    ensures t == Some(Decoded(v))
  {
    var d := UrlDecode(v);
    t := Some(d);
  }

  // ── What is read ────────────────────────────────────────────────────────────

  function Joined(parts: seq<Bytes>, d: byte): Bytes
    requires parts != []
  {
    if |parts| == 1 then parts[0] else parts[0] + [d] + Joined(parts[1..], d)
  }

  /** Splitting is undone by joining, and leaves no delimiter in any part. */
  lemma {:induction false} SplitMeans(s: Bytes, d: byte)
    ensures Joined(Split(s, d), d) == s && forall i | 0 <= i < |Split(s, d)| :: d !in Split(s, d)[i]
  {
    var k := Cut(s, d);
    hide Cut;
    if k < |s| {
      SplitMeans(s[k + 1..], d);
      assert s == s[..k] + [d] + s[k + 1..];
    }
  }

  predicate HasKey(pair: Bytes, key: Bytes) {
    key + [EQUALS] <= pair
  }

  lemma NamedMeans(pair: Bytes, key: Bytes)
    requires EQUALS !in key
    ensures HasKey(pair, key) ==> Named(pair) == Some((key, pair[|key| + 1..]))
    ensures !HasKey(pair, key) ==> Named(pair).None? || Named(pair).value.0 != key
  {
    hide Cut;
    if HasKey(pair, key) {
      var v := pair[|key| + 1..];
      assert pair == key + [EQUALS] + v;
      CutAt(key, EQUALS, v);
      assert pair[..|key|] == key;
    } else if Named(pair).Some? {
      var k := Cut(pair, EQUALS);
      assert pair == pair[..k] + [EQUALS] + pair[k + 1..];
    }
  }

  /** The pair at `i` has the key, and none behind it has. */
  predicate LastOf(pairs: seq<Bytes>, key: Bytes, i: nat)
    requires i < |pairs|
  {
    HasKey(pairs[i], key) && forall j | i < j < |pairs| :: !HasKey(pairs[j], key)
  }

  /** The last pair of a key decides, whatever stands before and behind it. */
  lemma {:induction false} LastDecides(pairs: seq<Bytes>, key: Bytes, i: nat)
    requires EQUALS !in key && i < |pairs| && LastOf(pairs, key, i)
    ensures LastValue(pairs, key) == Some(Decoded(pairs[i][|key| + 1..]))
  {
    hide LastValue, HasKey, Decoded;
    LastStep(pairs, key);
    var n := |pairs| - 1;
    if i < n {
      assert forall j | i < j < n :: pairs[..n][j] == pairs[j];
      LastDecides(pairs[..n], key, i);
    }
  }

  /** Nothing is read exactly when no pair has the key. */
  lemma {:induction false} NoneDecides(pairs: seq<Bytes>, key: Bytes)
    requires EQUALS !in key
    ensures LastValue(pairs, key) == None <==> forall i | 0 <= i < |pairs| :: !HasKey(pairs[i], key)
  {
    hide LastValue, HasKey, Decoded;
    LastStep(pairs, key);
    if pairs == [] {
    } else {
      NoneDecides(pairs[..|pairs| - 1], key);
    }
  }

  lemma LastStep(pairs: seq<Bytes>, key: Bytes)
    requires EQUALS !in key
    ensures pairs == [] ==> LastValue(pairs, key) == None
    ensures pairs != [] ==>
              var last := pairs[|pairs| - 1];
              LastValue(pairs, key) ==
              if HasKey(last, key) then Some(Decoded(last[|key| + 1..])) else LastValue(pairs[..|pairs| - 1], key)
  {
    hide Named, HasKey, Decoded;
    if pairs != [] {
      NamedMeans(pairs[|pairs| - 1], key);
    }
  }

  /** The pairs are what stands between the first question mark and the next, split at ampersands. */
  lemma QueryDecides(path: Bytes, query: Bytes, rest: Bytes)
    requires QUESTION !in path && QUESTION !in query && (rest == [] || rest[0] == QUESTION)
    ensures Pairs(path) == [] && Pairs(path + [QUESTION] + query + rest) == Split(query, AMPERSAND)
  {
    hide Cut, Split;
    SplitAt(path, QUESTION, query + rest);
    SplitAt(query, QUESTION, if rest == [] then [] else rest[1..]);
    assert path + [QUESTION] + query + rest == path + [QUESTION] + (query + rest);
    if rest == [] {
      assert query + rest == query;
    } else {
      assert query + rest == query + [QUESTION] + rest[1..];
    }
  }

  lemma Delimiters()
    ensures Spells([QUESTION, AMPERSAND, EQUALS, HASH], "?&=#") && Spells(CODE, "code") && Spells(STATE, "state")
  {
  }

  // ── Round trip ──────────────────────────────────────────────────────────────

  lemma EncodedIsPlain(s: Bytes)
    ensures QUESTION !in Encoded(s) && AMPERSAND !in Encoded(s) && EQUALS !in Encoded(s) && HASH !in Encoded(s)
  {
    hide Encoded;
    EncodedAlphabet(s);
  }

  lemma QueryIsPlain(code: Bytes, state: Bytes)
    ensures QUESTION !in Query(code, state) && HASH !in Query(code, state)
  {
    hide Encoded;
    EncodedIsPlain(code);
    EncodedIsPlain(state);
  }

  /** One pair the server prints, as the client reads it. */
  lemma PairReads(key: Bytes, v: Text)
    requires EQUALS !in key
    ensures Named(key + [EQUALS] + Encoded(v)) == Some((key, Encoded(v))) && Decoded(Encoded(v)) == v
  {
    hide Encoded, Decoded, Valid, Cut;
    CutAt(key, EQUALS, Encoded(v));
    assert (key + [EQUALS] + Encoded(v))[..|key|] == key;
    assert (key + [EQUALS] + Encoded(v))[|key| + 1..] == Encoded(v);
    RoundTrip(v);
  }

  lemma QueryPairs(code: Text, state: Text)
    ensures Split(Query(code, state), AMPERSAND) ==
            [CODE + [EQUALS] + Encoded(code)] + if state == [] then [] else [STATE + [EQUALS] + Encoded(state)]
  {
    hide Encoded, Split, Valid;
    EncodedIsPlain(code);
    EncodedIsPlain(state);
    var first, second := CODE + [EQUALS] + Encoded(code), STATE + [EQUALS] + Encoded(state);
    assert AMPERSAND !in first && AMPERSAND !in second;
    SplitAt(first, AMPERSAND, second);
    SplitAt(second, AMPERSAND, []);
    if state == [] {
      assert Query(code, state) == first;
    } else {
      assert Query(code, state) == first + [AMPERSAND] + second;
      assert [first] + [second] == [first, second];
    }
  }

  /** What the client should get: the code, and the state unless it was empty. */
  function Sent(code: Bytes, state: Bytes): (Option<Bytes>, Option<Bytes>) {
    (Some(code), if state == [] then None else Some(state))
  }

  lemma PairsRead(code: Text, state: Text)
    ensures var pairs := Split(Query(code, state), AMPERSAND);
            (LastValue(pairs, CODE), LastValue(pairs, STATE)) == Sent(code, state)
  {
    hide Encoded, Decoded, Split, Valid, Named, Query;
    QueryPairs(code, state);
    PairReads(CODE, code);
    PairReads(STATE, state);
    var first, second := CODE + [EQUALS] + Encoded(code), STATE + [EQUALS] + Encoded(state);
    assert LastValue([first], CODE) == Some(code) && LastValue([first], STATE) == None;
    assert [first, second][..1] == [first];
  }

  /** The target of the request a browser makes for the server's redirect to `path`. */
  function Requested(path: Bytes, code: Bytes, state: Bytes): Bytes {
    WithoutFragment(path + [QUESTION] + Query(code, state))
  }

  lemma Unfragmented(path: Bytes, code: Bytes, state: Bytes)
    requires HASH !in path
    ensures Requested(path, code, state) == path + [QUESTION] + Query(code, state)
  {
    hide Cut, Query;
    QueryIsPlain(code, state);
    var url := path + [QUESTION] + Query(code, state);
    assert HASH !in url;
    CutAt(url, HASH, []);
    assert url[..|url|] == url;
  }

  lemma ReadBack(path: Bytes, code: Text, state: Text)
    requires QUESTION !in path && HASH !in path
    ensures Read(Requested(path, code, state)) == Sent(code, state)
  {
    hide Cut, Split, Query, LastValue, Valid, Requested;
    QueryIsPlain(code, state);
    Unfragmented(path, code, state);
    var q := Query(code, state);
    SplitAt(path, QUESTION, q);
    SplitAt(q, QUESTION, []);
    PairsRead(code, state);
  }

  /** When the redirect URI itself holds a question mark or a fragment, the client reads the same thing
      whatever the server sends. */
  lemma NothingArrives(path: Bytes, code: Text, state: Text, code': Text, state': Text)
    requires QUESTION in path || HASH in path
    ensures Read(Requested(path, code, state)) == Read(Requested(path, code', state'))
  {
    hide Cut, Split, Query, LastValue, Valid;
    if HASH in path {
      CutInside(path, HASH, [QUESTION] + Query(code, state));
      CutInside(path, HASH, [QUESTION] + Query(code', state'));
      assert path + [QUESTION] + Query(code, state) == path + ([QUESTION] + Query(code, state));
      assert path + [QUESTION] + Query(code', state') == path + ([QUESTION] + Query(code', state'));
    } else {
      PairsInside(path, code, state);
      PairsInside(path, code', state');
    }
  }

  lemma CutInside(a: Bytes, d: byte, b: Bytes)
    requires d in a
    ensures Cut(a + b, d) == Cut(a, d) < |a| && (a + b)[..Cut(a, d)] == a[..Cut(a, d)]
  {
    var k := Cut(a, d);
    assert a + b == a[..k] + [d] + (a[k + 1..] + b);
    CutAt(a[..k], d, a[k + 1..] + b);
  }

  /** What stands between the first question mark and the next, or the end. */
  function Between(path: Bytes): Bytes
    requires Cut(path, QUESTION) < |path|
  {
    var rest := path[Cut(path, QUESTION) + 1..];
    rest[..Cut(rest, QUESTION)]
  }

  lemma PairsInside(path: Bytes, code: Text, state: Text)
    requires QUESTION in path && HASH !in path
    ensures Cut(path, QUESTION) < |path|
    ensures Pairs(Requested(path, code, state)) == Split(Between(path), AMPERSAND)
  {
    hide Cut, Query, Valid, Split, Requested;
    Unfragmented(path, code, state);
    var q := Query(code, state);
    CutInside(path, QUESTION, [QUESTION] + q);
    var k := Cut(path, QUESTION);
    var rest := path[k + 1..];
    Reassociated(path, k, q);
    SplitAt(path[..k], QUESTION, rest + ([QUESTION] + q));
    FirstPart(rest, q);
  }

  lemma Reassociated(path: Bytes, k: nat, q: Bytes)
    requires k < |path| && path[k] == QUESTION
    ensures path + [QUESTION] + q == path[..k] + [QUESTION] + (path[k + 1..] + ([QUESTION] + q))
  {
  }

  lemma FirstPart(rest: Bytes, q: Bytes)
    ensures Split(rest + ([QUESTION] + q), QUESTION)[0] == rest[..Cut(rest, QUESTION)]
  {
    hide Cut, Split;
    var k := Cut(rest, QUESTION);
    if k < |rest| {
      InnerMark(rest, k, q);
      SplitAt(rest[..k], QUESTION, rest[k + 1..] + ([QUESTION] + q));
    } else {
      OuterMark(rest, q);
      SplitAt(rest, QUESTION, q);
    }
  }

  lemma InnerMark(rest: Bytes, k: nat, q: Bytes)
    requires k < |rest| && rest[k] == QUESTION
    ensures rest + ([QUESTION] + q) == rest[..k] + [QUESTION] + (rest[k + 1..] + ([QUESTION] + q))
  {
  }

  lemma OuterMark(rest: Bytes, q: Bytes)
    ensures rest + ([QUESTION] + q) == rest + [QUESTION] + q && rest[..|rest|] == rest
  {
  }
}
