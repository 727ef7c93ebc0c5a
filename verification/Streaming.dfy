/** Incremental text: after every token the whole token sequence is decoded again and the part not
    yet emitted is sent, unless it might still change. */
module Streaming {
  import opened Prelude
  import opened Utf8

  type Tok = int

  /** A tokenizer as the engine uses it: decoding is the lossy UTF-8 reading of the token bytes
      (special tokens contribute none). */
  function TokenBytes(toks: seq<Tok>, bytesOf: Tok -> Bytes): Bytes {
    if toks == [] then [] else TokenBytes(toks[..|toks| - 1], bytesOf) + bytesOf(toks[|toks| - 1])
  }

  function Decode(toks: seq<Tok>, bytesOf: Tok -> Bytes): Text {
    DecodeUtf8(TokenBytes(toks, bytesOf))
  }

  datatype Delta = Delta(text: Bytes, reasoning: bool)

  /** Everything sent on one channel, in order. */
  function Sent(deltas: seq<Delta>, reasoning: bool): Bytes {
    if deltas == [] then [] else
    var last := deltas[|deltas| - 1];
    Sent(deltas[..|deltas| - 1], reasoning) + if last.reasoning == reasoning then last.text else []
  }

  // ── What has been sent so far ───────────────────────────────────────────────

  /** The line that opens a channel: skipped when the text begins with it. */
  predicate SkipOk(skip: Option<Text>) {
    skip.Some? ==> skip.value != [] && !EndsWith(skip.value, FFFD)
  }

  /** The text the client should end up with. */
  function Target(text: Bytes, skip: Option<Text>): Bytes {
    if skip.Some? && skip.value <= text then text[|skip.value|..] else text
  }

  /** `total` is what some prefix of the bytes decodes to, complete up to its last character. */
  predicate Settled(bytes: Bytes, total: Bytes) {
    && !EndsWith(total, FFFD)
    && exists k | 0 <= k <= |bytes| :: Lossy(bytes[..k]) == total
  }

  /** The state of one channel: `emitted` bytes of its text are accounted for, `lead` of them skipped
      and the rest sent. Nothing accounted for can change any more. */
  predicate Streamed(bytes: Bytes, skip: Option<Text>, lead: Bytes, emitted: nat, sent: Bytes) {
    && emitted == |lead| + |sent|
    && (emitted > 0 ==> Settled(bytes, lead + sent))
    && (lead != [] ==> skip == Some(lead))
    && (emitted > 0 && lead == [] && skip.Some? ==> !(skip.value <= sent) && !(sent <= skip.value))
  }

  /** The client has nothing of a text that might still turn out to be the opening line, and of any other
      everything except a tail that might still change. */
  predicate CaughtUp(text: Bytes, skip: Option<Text>, sent: Bytes) {
    var target := Target(text, skip);
    if skip.Some? && text < skip.value then sent == []
    else sent <= target && (sent == target || EndsWith(target[|sent|..], FFFD))
  }

  lemma SettledGrows(bytes: Bytes, more: Bytes, total: Bytes)
    requires Settled(bytes, total)
    ensures Settled(bytes + more, total)
  {
    hide Lossy;
    var k :| 0 <= k <= |bytes| && Lossy(bytes[..k]) == total;
    assert (bytes + more)[..k] == bytes[..k];
  }

  /** More tokens leave the state of a channel as it is. */
  lemma StreamedGrows(bytes: Bytes, more: Bytes, skip: Option<Text>, lead: Bytes, emitted: nat, sent: Bytes)
    requires Streamed(bytes, skip, lead, emitted, sent)
    ensures Streamed(bytes + more, skip, lead, emitted, sent)
  {
    hide Settled;
    if emitted > 0 { SettledGrows(bytes, more, lead + sent); }
  }

  /** What is settled is a prefix of the text, cut between two characters. */
  lemma SettledIsPrefix(bytes: Bytes, total: Bytes)
    requires Settled(bytes, total)
    ensures total <= Lossy(bytes) && IsCharBoundary(Lossy(bytes), |total|)
  {
    hide Lossy, IsCharBoundary;
    var k :| 0 <= k <= |bytes| && Lossy(bytes[..k]) == total;
    assert bytes == bytes[..k] + bytes[k..];
    LossyExtends(bytes[..k], bytes[k..]);
    LossyIsValid(bytes[k..]);
    PrefixIsBoundary(total, Lossy(bytes[k..]));
  }

  lemma WholeIsSettled(bytes: Bytes)
    requires !EndsWith(Lossy(bytes), FFFD)
    ensures Settled(bytes, Lossy(bytes))
  {
    hide Lossy;
    assert bytes[..|bytes|] == bytes;
  }

  lemma PrefixIsSettled(bytes: Bytes, p: Text)
    requires p <= Lossy(bytes) && !EndsWith(p, FFFD)
    ensures Settled(bytes, p)
  {
    hide Lossy;
    var k := LossyPrefix(bytes, p);
  }

  /** In any state reached, what has been sent is a prefix of the target text. */
  lemma SentIsPrefix(bytes: Bytes, skip: Option<Text>, lead: Bytes, emitted: nat, sent: Bytes)
    requires SkipOk(skip) && Streamed(bytes, skip, lead, emitted, sent)
    ensures sent <= Target(Lossy(bytes), skip)
  {
    hide Lossy, Settled;
    var text := Lossy(bytes);
    if emitted > 0 {
      SettledIsPrefix(bytes, lead + sent);
      if lead != [] {
        LeadThenSent(lead, sent, text);
      } else {
        assert lead + sent == sent;
        if skip.Some? && skip.value <= text { OnePrefix(skip.value, sent, text); }
      }
    }
  }

  lemma LeadThenSent(lead: Bytes, sent: Bytes, text: Bytes)
    requires lead + sent <= text
    ensures lead <= text && sent <= text[|lead|..]
  {
    assert text[..|lead|] == (lead + sent)[..|lead|];
    assert text[|lead|..][..|sent|] == text[..|lead| + |sent|][|lead|..];
  }

  /** Two prefixes of one text are comparable. */
  lemma OnePrefix(a: Bytes, b: Bytes, text: Bytes)
    requires a <= text && b <= text
    ensures a <= b || b <= a
  {
  }

  // ── One step ────────────────────────────────────────────────────────────────

  /** Decodes the channel's tokens and sends what is new and final. */
  method StreamDelta(bytesOf: Tok -> Bytes, toks: seq<Tok>, emitted: nat, skip: Option<Text>, reasoning: bool,
                     deltas: seq<Delta>, ghost lead: Bytes)
    returns (emitted': nat, deltas': seq<Delta>, ghost lead': Bytes)
    requires SkipOk(skip)
    requires Streamed(TokenBytes(toks, bytesOf), skip, lead, emitted, Sent(deltas, reasoning))
    ensures Streamed(TokenBytes(toks, bytesOf), skip, lead', emitted', Sent(deltas', reasoning))
    ensures CaughtUp(Decode(toks, bytesOf), skip, Sent(deltas', reasoning))
    ensures Sent(deltas', !reasoning) == Sent(deltas, !reasoning)
    ensures deltas <= deltas'
  {
    hide Lossy, Valid, IsCharBoundary, Settled, CaughtUp, Sent, Target, TokenBytes;
    ghost var bytes, sent := TokenBytes(toks, bytesOf), Sent(deltas, reasoning);
    var text := Decode(toks, bytesOf);
    emitted', deltas', lead' := emitted, deltas, lead;
    if emitted' == 0 {
      if skip.Some? {
        if |text| < |skip.value| && text <= skip.value {
          NothingYet(text, skip);
          return;
        }
        if skip.value <= text {
          emitted', lead' := |skip.value|, skip.value;
          PrefixIsSettled(bytes, skip.value);
          assert lead' + sent == lead';
        }
      }
    }
    StartIsBoundary(text);
    if emitted' > 0 { SettledIsPrefix(bytes, lead' + sent); }
    assert Divided(text, skip, lead', sent) by {
      assert lead' + sent == if emitted' == 0 then [] else lead' + sent;
      if emitted > 0 && lead == [] && skip.Some? {
        assert lead' + sent == sent;
        Compare(skip, sent, text);
      }
    }
    if |text| <= emitted' || !IsCharBoundary(text, emitted') {
      CaughtUpWith(text, skip, lead', sent);
      return;
    }
    var delta := text[emitted'..];
    if EndsWith(delta, FFFD) {
      CaughtUpWith(text, skip, lead', sent);
      return;
    }
    deltas' := deltas + [Delta(delta, reasoning)];
    SentStep(deltas, Delta(delta, reasoning));
    SendAll(bytes, text, skip, lead', sent, delta);
    emitted' := |text|;
  }

  lemma StartIsBoundary(text: Bytes)
    ensures IsCharBoundary(text, 0)
  {
  }

  lemma SentStep(deltas: seq<Delta>, d: Delta)
    ensures Sent(deltas + [d], d.reasoning) == Sent(deltas, d.reasoning) + d.text
    ensures Sent(deltas + [d], !d.reasoning) == Sent(deltas, !d.reasoning)
  {
    assert (deltas + [d])[..|deltas|] == deltas;
  }

  lemma NothingYet(text: Bytes, skip: Option<Text>)
    requires skip.Some? && |text| < |skip.value| && text <= skip.value
    ensures CaughtUp(text, skip, [])
  {
  }

  /** How `lead` and `sent` stand to the text when a step looks at the rest. */
  predicate Divided(text: Bytes, skip: Option<Text>, lead: Bytes, sent: Bytes) {
    && lead + sent <= text
    && (lead != [] ==> skip == Some(lead))
    && (lead == [] && skip.Some? ==> !(skip.value <= text) && !(text <= skip.value))
  }

  lemma TargetOfDivided(text: Bytes, skip: Option<Text>, lead: Bytes, sent: Bytes)
    requires SkipOk(skip) && Divided(text, skip, lead, sent)
    ensures Target(text, skip) == text[|lead|..] && sent <= text[|lead|..]
    ensures text[|lead|..][|sent|..] == text[|lead| + |sent|..]
  {
    LeadThenSent(lead, sent, text);
  }

  lemma Compare(skip: Option<Text>, sent: Bytes, text: Bytes)
    requires skip.Some? && sent <= text && !(skip.value <= sent) && !(sent <= skip.value)
    ensures !(skip.value <= text) && !(text <= skip.value)
  {
    if skip.value <= text { OnePrefix(skip.value, sent, text); }
    if text <= skip.value { PrefixTransitive(sent, text, skip.value); }
  }

  lemma PrefixTransitive(a: Bytes, b: Bytes, c: Bytes)
    requires a <= b && b <= c
    ensures a <= c
  {
  }

  lemma CaughtUpWith(text: Bytes, skip: Option<Text>, lead: Bytes, sent: Bytes)
    requires SkipOk(skip) && Divided(text, skip, lead, sent)
    requires |text| <= |lead| + |sent| || EndsWith(text[|lead| + |sent|..], FFFD)
    ensures CaughtUp(text, skip, sent)
  {
    TargetOfDivided(text, skip, lead, sent);
  }

  /** A delta that starts on a character and does not end in U+FFFD settles the whole text. */
  lemma NotReplaced(text: Bytes, at: nat)
    requires at < |text| && IsCharBoundary(text, at) && !EndsWith(text[at..], FFFD)
    ensures !EndsWith(text, FFFD)
  {
  }

  lemma SendAll(bytes: Bytes, text: Bytes, skip: Option<Text>, lead: Bytes, sent: Bytes, delta: Bytes)
    requires SkipOk(skip) && Divided(text, skip, lead, sent) && text == Lossy(bytes)
    requires |lead| + |sent| < |text| && delta == text[|lead| + |sent|..]
    requires IsCharBoundary(text, |lead| + |sent|) && !EndsWith(delta, FFFD)
    ensures Streamed(bytes, skip, lead, |text|, sent + delta)
    ensures CaughtUp(text, skip, sent + delta)
  {
    hide Lossy, IsCharBoundary, Settled;
    NotReplaced(text, |lead| + |sent|);
    WholeIsSettled(bytes);
    TargetOfDivided(text, skip, lead, sent);
    assert lead + (sent + delta) == text;
    assert sent + delta == text[|lead|..];
  }
}
