/** The pipelined decode loop: the next pick is computed before the current one is looked at, text
    is streamed and tool calls are captured on the way. */
module DecodeLoop {
  import opened Prelude
  import opened Utf8
  import opened Streaming
  import opened ToolSpans

  // ── Models and caches ───────────────────────────────────────────────────────

  /** One position of a key/value cache: the token it holds and the model that computed it. */
  datatype Slot = Slot(model: string, tok: Tok)

  function Stamp(model: string, toks: seq<Tok>): (s: seq<Slot>)
    ensures |s| == |toks|
  {
    seq(|toks|, i requires 0 <= i < |toks| => Slot(model, toks[i]))
  }

  /** A loaded model. `pick` is the n-th pick of a request given everything the cache has consumed
      (greedy or from a fixed stream of random draws); `parses` tells which captured spans are calls. */
  datatype Model = Model(
    id: string,
    stop: seq<Tok>,
    tools: Option<ToolMarkers>,
    channel: Option<Channel>,
    pick: (nat, seq<Slot>) -> Tok,
    bytesOf: Tok -> Bytes,
    trim: Text -> Text,
    parses: seq<Tok> -> bool)

  class KvCache {
    var consumed: seq<Slot>

    constructor ()
      ensures consumed == []
    {
      consumed := [];
    }

    /** Runs tokens through the model on top of what is cached. A failed forward pass leaves the
        cache in no particular state. */
    method Forward(model: string, piece: seq<Tok>) returns (ok: bool)
      modifies this
      ensures ok ==> consumed == old(consumed) + Stamp(model, piece)
    {
      ok := *;
      if ok {
        consumed := consumed + Stamp(model, piece);
      } else {
        consumed := *;
      }
    }

    /** A copy frozen at the current position. */
    method Snapshot() returns (copy: KvCache)
      ensures fresh(copy) && copy.consumed == consumed
    {
      copy := new KvCache();
      copy.consumed := consumed;
    }
  }

  // ── The reference: one token at a time ──────────────────────────────────────

  predicate Halts(m: Model, out: seq<Tok>, next: Tok) {
    TurnOver(m.tools, out, next) || next in m.stop
  }

  function NextPick(m: Model, base: seq<Slot>, out: seq<Tok>): Tok {
    m.pick(|out|, base + Stamp(m.id, out))
  }

  /** Pick, check, append; only then go on. */
  function OneByOne(m: Model, base: seq<Slot>, out: seq<Tok>, max: nat): (r: seq<Tok>)
    decreases max - |out|
  {
    if |out| >= max then out else
    var next := NextPick(m, base, out);
    if Halts(m, out, next) then out else OneByOne(m, base, out + [next], max)
  }

  /** A completion in which nothing halts yet: every token is the pick after what precedes it. */
  predicate IsPartial(m: Model, base: seq<Slot>, out: seq<Tok>) {
    forall i | 0 <= i < |out| :: out[i] == NextPick(m, base, out[..i]) && !Halts(m, out[..i], out[i])
  }

  /** A finished completion: it is as long as the budget allows, or the next pick halts. */
  predicate IsTranscript(m: Model, base: seq<Slot>, out: seq<Tok>, max: nat) {
    && IsPartial(m, base, out) && |out| <= max
    && (|out| == max || Halts(m, out, NextPick(m, base, out)))
  }

  lemma PartialStep(m: Model, base: seq<Slot>, out: seq<Tok>, next: Tok)
    requires IsPartial(m, base, out) && next == NextPick(m, base, out) && !Halts(m, out, next)
    ensures IsPartial(m, base, out + [next])
  {
    hide NextPick, Halts;
    var after := out + [next];
    forall i | 0 <= i < |after| ensures after[i] == NextPick(m, base, after[..i]) && !Halts(m, after[..i], after[i]) {
      assert after[..i] == out[..i];
      if i == |out| { assert out[..i] == out; }
    }
  }

  /** The reference produces the one and only transcript, and it ends early exactly when a pick halts. */
  lemma {:induction false} OneByOneIsTranscript(m: Model, base: seq<Slot>, out: seq<Tok>, max: nat)
    requires IsPartial(m, base, out) && |out| <= max
    ensures IsTranscript(m, base, OneByOne(m, base, out, max), max)
    ensures out <= OneByOne(m, base, out, max)
    decreases max - |out|
  {
    hide NextPick, Halts;
    if |out| >= max {
    } else {
      var next := NextPick(m, base, out);
      if !Halts(m, out, next) {
        PartialStep(m, base, out, next);
        OneByOneIsTranscript(m, base, out + [next], max);
      }
    }
  }

  lemma {:induction false} TranscriptUnique(m: Model, base: seq<Slot>, a: seq<Tok>, b: seq<Tok>, max: nat, n: nat)
    requires IsTranscript(m, base, a, max) && IsTranscript(m, base, b, max)
    requires n <= |a| && n <= |b| && a[..n] == b[..n]
    ensures a == b
    decreases max - n
  {
    hide NextPick, Halts;
    assert n == |a| ==> a[..n] == a;
    assert n == |b| ==> b[..n] == b;
    if n < |a| && n < |b| {
      assert a[..n + 1] == a[..n] + [a[n]] && b[..n + 1] == b[..n] + [b[n]];
      TranscriptUnique(m, base, a, b, max, n + 1);
    }
  }

  // ── The loop ────────────────────────────────────────────────────────────────

  /** What the loop hands on: the raw completion, the captured spans, both channel views, and what
      has been streamed. */
  datatype Decoded = Decoded(
    out: seq<Tok>, spans: seq<seq<Tok>>, inTool: bool,
    content: seq<Tok>, reasoning: seq<Tok>,
    emittedContent: nat, emittedReasoning: nat, deltas: seq<Delta>)

  /** The `{name}` line that opens a reasoning channel. */
  function NameLine(channel: Option<Channel>): (line: Option<Text>)
    ensures SkipOk(line)
  {
    match channel
    case None => None
    case Some(ch) => NameLineText(ch.name); Some(ch.name + [0x0A])
  }

  lemma NameLineText(name: Text)
    ensures Valid(name + [0x0A]) && !EndsWith(name + [0x0A], FFFD)
  {
    NewlineIsText();
    hide Valid;
    ValidConcat(name, [0x0A]);
    EndsInLast(name + [0x0A], FFFD);
  }

  lemma EndsInLast(s: Bytes, x: Bytes)
    requires s != [] && x != []
    ensures EndsWith(s, x) ==> s[|s| - 1] == x[|x| - 1]
  {
    if EndsWith(s, x) {
      assert s[|s| - |x|..][|x| - 1] == s[|s| - 1];
    }
  }

  lemma NewlineIsText()
    ensures Valid([0x0A])
  {
  }

  /** Streaming state of both channels for the tokens routed so far. */
  predicate Streams(m: Model, d: Decoded, lead: Bytes) {
    && Streamed(TokenBytes(d.content, m.bytesOf), None, [], d.emittedContent, Sent(d.deltas, false))
    && Streamed(TokenBytes(d.reasoning, m.bytesOf), NameLine(m.channel), lead, d.emittedReasoning, Sent(d.deltas, true))
  }

  /** The captured spans are the bodies of the completion's call blocks. */
  predicate Captures(d: Decoded, tools: Option<ToolMarkers>) {
    d.spans == Bodies(Calls(d.out, tools)) && d.inTool == Inside(Calls(d.out, tools)) && Accounted(d.out, tools)
  }

  /** When streaming, the views are the two-pass split of the text kept so far; otherwise they stay empty. */
  predicate Views(m: Model, d: Decoded, kept: seq<Tok>, inReasoning: bool, streaming: bool) {
    var p := Split(kept, m.channel);
    && inReasoning == p.inReasoning
    && (if streaming then d.content == p.content && d.reasoning == p.reasoning
        else d.content == [] && d.reasoning == [] && d.deltas == [])
  }

  const NOTHING := Decoded([], [], false, [], [], 0, 0, [])

  /** Sends the new end of one channel. */
  method Emit(m: Model, d: Decoded, reasoning: bool, ghost lead: Bytes) returns (d': Decoded, ghost lead': Bytes)
    requires Streams(m, d, lead)
    ensures Streams(m, d', lead')
    ensures d' == d.(emittedContent := d'.emittedContent, emittedReasoning := d'.emittedReasoning, deltas := d'.deltas)
    ensures if reasoning
            then CaughtUp(Decode(d.reasoning, m.bytesOf), NameLine(m.channel), Sent(d'.deltas, true))
            else CaughtUp(Decode(d.content, m.bytesOf), None, Sent(d'.deltas, false))
    ensures Sent(d'.deltas, !reasoning) == Sent(d.deltas, !reasoning)
    ensures d.deltas <= d'.deltas
  {
    hide Streamed, CaughtUp, Sent, NameLine, TokenBytes;
    d', lead' := d, lead;
    if reasoning {
      var emitted, deltas;
      emitted, deltas, lead' := StreamDelta(m.bytesOf, d.reasoning, d.emittedReasoning, NameLine(m.channel), true, d.deltas, lead);
      d' := d.(emittedReasoning := emitted, deltas := deltas);
    } else {
      var emitted, deltas;
      ghost var none: Bytes;
      emitted, deltas, none := StreamDelta(m.bytesOf, d.content, d.emittedContent, None, false, d.deltas, []);
      NoLead(TokenBytes(d.content, m.bytesOf), none, emitted, Sent(deltas, false));
      d' := d.(emittedContent := emitted, deltas := deltas);
    }
  }

  lemma NoLead(bytes: Bytes, lead: Bytes, emitted: nat, sent: Bytes)
    requires Streamed(bytes, None, lead, emitted, sent)
    ensures lead == []
  {
    hide Settled;
  }

  /** A token that is not part of a call, routed to its channel. */
  method RouteText(m: Model, d: Decoded, next: Tok, inReasoning: bool, streaming: bool, ghost kept: seq<Tok>,
                   ghost lead: Bytes)
    returns (d': Decoded, inReasoning': bool, ghost lead': Bytes)
    requires Views(m, d, kept, inReasoning, streaming) && Streams(m, d, lead)
    ensures Views(m, d', kept + [next], inReasoning', streaming) && Streams(m, d', lead')
    ensures d'.out == d.out && d'.spans == d.spans && d'.inTool == d.inTool
  {
    hide Split, Streamed, Sent;
    SplitStep(kept, next, m.channel);
    d', inReasoning', lead' := d, inReasoning, lead;
    if m.channel.Some? && next == m.channel.value.open {
      inReasoning' := true;
    } else if m.channel.Some? && next == m.channel.value.close {
      inReasoning' := false;
    } else if streaming {
      if inReasoning {
        GrowView(d.reasoning, next, m.bytesOf, NameLine(m.channel), lead, d.emittedReasoning, Sent(d.deltas, true));
        d' := d.(reasoning := d.reasoning + [next]);
        d', lead' := Emit(m, d', true, lead);
      } else {
        GrowView(d.content, next, m.bytesOf, None, [], d.emittedContent, Sent(d.deltas, false));
        d' := d.(content := d.content + [next]);
        d', lead' := Emit(m, d', false, lead);
      }
    }
  }

  lemma GrowView(view: seq<Tok>, next: Tok, bytesOf: Tok -> Bytes, skip: Option<Text>, lead: Bytes,
                 emitted: nat, sent: Bytes)
    requires Streamed(TokenBytes(view, bytesOf), skip, lead, emitted, sent)
    ensures Streamed(TokenBytes(view + [next], bytesOf), skip, lead, emitted, sent)
  {
    hide Streamed;
    assert (view + [next])[..|view|] == view;
    StreamedGrows(TokenBytes(view, bytesOf), bytesOf(next), skip, lead, emitted, sent);
  }

  lemma NothingStreamed(m: Model)
    ensures Streams(m, NOTHING, [])
    ensures Views(m, NOTHING, [], false, true) && Views(m, NOTHING, [], false, false)
  {
  }

  /** Both predicates look only at the views and at what was streamed. */
  lemma SameViews(m: Model, d: Decoded, d': Decoded, kept: seq<Tok>, r: bool, streaming: bool, lead: Bytes)
    requires Views(m, d, kept, r, streaming) && Streams(m, d, lead)
    requires d' == d.(out := d'.out, spans := d'.spans, inTool := d'.inTool)
    ensures Views(m, d', kept, r, streaming) && Streams(m, d', lead)
  {
    hide Split, Streamed, Sent;
  }

  lemma FirstPick(m: Model, base: seq<Slot>)
    ensures m.pick(0, base) == NextPick(m, base, []) && base == base + Stamp(m.id, []) && IsPartial(m, base, [])
  {
    assert base + Stamp(m.id, []) == base;
  }

  /** The pick computed ahead is the reference's next pick, provided the current one is kept. */
  lemma PickAhead(m: Model, base: seq<Slot>, out: seq<Tok>, cur: Tok)
    ensures base + Stamp(m.id, out) + Stamp(m.id, [cur]) == base + Stamp(m.id, out + [cur])
    ensures m.pick(|out| + 1, base + Stamp(m.id, out) + Stamp(m.id, [cur])) == NextPick(m, base, out + [cur])
  {
    assert base + Stamp(m.id, out) + Stamp(m.id, [cur]) == base + Stamp(m.id, out + [cur]);
  }

  /** The loop's two tests are the reference's. */
  lemma HaltMeans(m: Model, d: Decoded, next: Tok)
    requires Captures(d, m.tools)
    ensures Halts(m, d.out, next) <==>
              (!d.inTool && d.spans != [] && !(m.tools.Some? && next == m.tools.value.open)) || next in m.stop
    ensures TurnOver(m.tools, d.out, next) ==> Halts(m, d.out, next)
    ensures d.inTool ==> d.spans != [] && m.tools.Some?
  {
    hide Render, Strip, WellFormed;
    if m.tools.Some? { OpenIsAccounted(d.out, m.tools.value); }
  }

  lemma AdvanceSpans(blocks: seq<Block>, t: ToolMarkers, next: Tok)
    requires next == t.open || Inside(blocks)
    ensures var n := |blocks| - 1;
            && Bodies(Advance(blocks, t, next)) ==
                 (if next == t.open then Bodies(blocks) + [[]]
                  else if t.close == Some(next) then Bodies(blocks)
                  else Bodies(blocks)[n := Bodies(blocks)[n] + [next]])
            && Inside(Advance(blocks, t, next)) == (next == t.open || t.close != Some(next))
  {
  }

  lemma Finished(m: Model, base: seq<Slot>, out: seq<Tok>, max: nat)
    requires IsPartial(m, base, out) && |out| <= max
    requires |out| == max || Halts(m, out, NextPick(m, base, out))
    ensures IsTranscript(m, base, out, max) && out == OneByOne(m, base, [], max)
  {
    hide Halts, NextPick;
    OneByOneIsTranscript(m, base, [], max);
    TranscriptUnique(m, base, out, OneByOne(m, base, [], max), max, 0);
  }

  /** Decodes at most `max` tokens. Each pick after the first is computed from the previous one
      before that one is checked; the loop stops at the first pick that halts. */
  method PipelinedDecode(m: Model, cache: KvCache, max: nat, streaming: bool, ghost base: seq<Slot>)
    returns (ok: bool, d: Decoded, ghost lead: Bytes)
    requires cache.consumed == base
    modifies cache
    ensures ok ==> IsTranscript(m, base, d.out, max) && d.out == OneByOne(m, base, [], max)
    ensures ok ==> Captures(d, m.tools)
    ensures ok ==> Views(m, d, Kept(d.out, m.tools), Split(Kept(d.out, m.tools), m.channel).inReasoning, streaming)
    ensures ok ==> Streams(m, d, lead)
  {
    hide Streams, Views, Captures, IsPartial, Halts, TurnOver, OneByOne, IsTranscript, NextPick, Split, Kept;
    d, lead, ok := NOTHING, [], true;
    NothingStreamed(m);
    NothingAccounted(m.tools);
    NothingCaptured(m);
    FirstPick(m, base);
    var inReasoning := false;
    var cur := m.pick(0, cache.consumed);
    var n := 0;
    while n < max
      invariant n <= max && |d.out| == n && ok
      invariant n < max ==> cur == NextPick(m, base, d.out) && cache.consumed == base + Stamp(m.id, d.out)
      invariant IsPartial(m, base, d.out) && Captures(d, m.tools)
      invariant Views(m, d, Kept(d.out, m.tools), inReasoning, streaming) && Streams(m, d, lead)
    {
      var next := cur;
      if n + 1 < max {
        ok := cache.Forward(m.id, [cur]);
        if !ok { return; }
        PickAhead(m, base, d.out, cur);
        cur := m.pick(n + 1, cache.consumed);
      }
      HaltMeans(m, d, next);
      var opensCall := m.tools.Some? && next == m.tools.value.open;
      if !d.inTool && d.spans != [] && !opensCall {
        break;
      }
      if next in m.stop {
        break;
      }
      PartialStep(m, base, d.out, next);
      n := n + 1;
      ghost var was := d;
      if m.tools.Some? && (opensCall || d.inTool) {
        d := RouteCall(m.tools.value, d, next);
        SameViews(m, was, d, Kept(was.out, m.tools), inReasoning, streaming, lead);
      } else {
        d := d.(out := d.out + [next]);
        SameViews(m, was, d, Kept(was.out, m.tools), inReasoning, streaming, lead);
        d, inReasoning, lead := RouteText(m, d, next, inReasoning, streaming, Kept(was.out, m.tools), lead);
        TextCaptured(m.tools, was, d, next);
      }
    }
    Finished(m, base, d.out, max);
    ViewsKnow(m, d, Kept(d.out, m.tools), inReasoning, streaming);
  }

  lemma NothingCaptured(m: Model)
    ensures Captures(NOTHING, m.tools)
  {
  }

  lemma TextCaptured(tools: Option<ToolMarkers>, d: Decoded, d': Decoded, next: Tok)
    requires Captures(d, tools) && !TurnOver(tools, d.out, next)
    requires tools.Some? ==> next != tools.value.open && !d.inTool
    requires d'.out == d.out + [next] && d'.spans == d.spans && d'.inTool == d.inTool
    ensures Captures(d', tools) && Kept(d'.out, tools) == Kept(d.out, tools) + [next]
  {
    hide Kept, Accounted, Calls, TurnOver;
    NoCallsWithoutTools(d.out, tools);
    AccountText(d.out, tools, next);
  }

  lemma NoCallsWithoutTools(out: seq<Tok>, tools: Option<ToolMarkers>)
    ensures tools.None? ==> Calls(out, tools) == []
  {
  }

  lemma ViewsKnow(m: Model, d: Decoded, kept: seq<Tok>, r: bool, streaming: bool)
    requires Views(m, d, kept, r, streaming)
    ensures r == Split(kept, m.channel).inReasoning
  {
  }

  /** A token that opens, closes or fills a tool call. */
  method RouteCall(t: ToolMarkers, d: Decoded, next: Tok) returns (d': Decoded)
    requires Captures(d, Some(t)) && (next == t.open || d.inTool)
    ensures d' == d.(out := d.out + [next], spans := d'.spans, inTool := d'.inTool)
    ensures Captures(d', Some(t)) && Kept(d'.out, Some(t)) == Kept(d.out, Some(t))
  {
    hide Strip, Render, Advance, Calls, Accounted, Kept;
    AccountCall(d.out, t, next);
    AdvanceSpans(Calls(d.out, Some(t)), t, next);
    CallsStep(d.out, Some(t), next);
    d' := d.(out := d.out + [next]);
    if next == t.open {
      d' := d'.(inTool := true, spans := d.spans + [[]]);
    } else if t.close == Some(next) {
      d' := d'.(inTool := false);
    } else {
      var last := |d.spans| - 1;
      d' := d'.(spans := d.spans[last := d.spans[last] + [next]]);
    }
  }
}
