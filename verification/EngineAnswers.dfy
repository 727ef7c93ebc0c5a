/** What the answer to a completed request says about its completion, field by field. */
module EngineAnswers {
  import opened Prelude
  import opened Utf8
  import opened Streaming
  import opened ToolSpans
  import opened DecodeLoop
  import opened Engine

  // ── The fields of an answer ─────────────────────────────────────────────────

  /** Where the first call opens, or the end of the completion. */
  function TextEnd(out: seq<Tok>, tools: Option<ToolMarkers>): (n: nat)
    ensures TextEnds(out, tools, n)
  {
    if tools.None? || out == [] then |out| else
    var n := TextEnd(out[..|out| - 1], tools);
    assert out == out[..|out| - 1] + [out[|out| - 1]];
    assert out[..n] == out[..|out| - 1][..n];
    if n < |out| - 1 || out[n] == tools.value.open then n else assert out[..|out| - 1] == out[..n]; |out|
  }

  /** The tokens of the answer's text and those of its reasoning. */
  function TokensOf(toks: seq<Tok>, channel: Option<Channel>, reasoning: bool): seq<Tok> {
    match channel
    case Some(ch) => OfChannel(toks, ch, reasoning)
    case None => if reasoning then [] else toks
  }

  function UnlessEmpty(text: Text): Option<Text> {
    if text == [] then None else Some(text)
  }

  /** The reasoning is its text less the name line, trimmed, and there is none when that is empty. */
  ghost predicate ReasoningFits(m: Model, toks: seq<Tok>, reasoning: Option<Text>) {
    match m.channel
    case None => reasoning == None
    case Some(ch) =>
      var raw, line := Decode(toks, m.bytesOf), ch.name + [0x0A];
      && (toks == [] ==> reasoning == None)
      && (toks != [] && !(line <= raw) ==> reasoning == UnlessEmpty(m.trim(raw)))
      && forall rest: Text | toks != [] && raw == line + rest :: reasoning == UnlessEmpty(m.trim(rest))
  }

  /** The blocks reported as calls: all of them, but the last only when it was closed or nothing closes calls. */
  function Reported(blocks: seq<Block>, t: ToolMarkers): seq<Block> {
    if blocks != [] && t.close.Some? && !blocks[|blocks| - 1].closed then blocks[..|blocks| - 1] else blocks
  }

  /** Read as call blocks, which is possible in one way only, `toks` holds these calls. */
  ghost predicate SpansFit(toks: seq<Tok>, tools: Option<ToolMarkers>, spans: seq<seq<Tok>>) {
    match tools
    case None => toks == [] && spans == []
    case Some(t) =>
      && (exists blocks :: ReadsAs(toks, blocks, t))
      && forall blocks | ReadsAs(toks, blocks, t) :: spans == Bodies(Reported(blocks, t))
  }

  predicate ReadsAs(toks: seq<Tok>, blocks: seq<Block>, t: ToolMarkers) {
    toks == Render(blocks, t) && forall b | b in blocks :: IsBlock(b, t)
  }

  /** The answer to a completion: the text is what the content channel holds before the first call. */
  ghost predicate AnswerFits(m: Model, out: seq<Tok>, max: nat, a: Answer) {
    var n := TextEnd(out, m.tools);
    && a.text == Decode(TokensOf(out[..n], m.channel, false), m.bytesOf)
    && ReasoningFits(m, TokensOf(out[..n], m.channel, true), a.reasoning)
    && SpansFit(out[n..], m.tools, a.spans)
    && a.completionTokens == |out|
    && a.finish == if a.spans != [] then ToolCalls else if |out| < max then Stop else Length
  }

  // ── Answers fit ─────────────────────────────────────────────────────────────

  lemma ReasoningMeans(m: Model, toks: seq<Tok>)
    ensures m.channel.Some? ==> ReasoningFits(m, toks, ReasoningText(m, toks))
  {
    hide Lossy, Valid, TokenBytes;
    if m.channel.Some? && toks != [] {
      var raw, line := Decode(toks, m.bytesOf), m.channel.value.name + [0x0A];
      assert NameLine(m.channel) == Some(line);
      forall rest: Text | raw == line + rest ensures ReasoningText(m, toks) == UnlessEmpty(m.trim(rest)) {
        assert raw[|line|..] == rest;
      }
    }
  }

  lemma SpansMean(m: Model, out: seq<Tok>)
    requires Accounted(out, m.tools)
    ensures SpansFit(out[TextEnd(out, m.tools)..], m.tools, CompleteSpans(out, m.tools))
  {
    hide Strip, Render, Calls, WellFormed, IsBlock;
    var n := TextEnd(out, m.tools);
    KeptIsBeforeCalls(out, m.tools, n);
    if m.tools.Some? {
      var t, mine := m.tools.value, Calls(out, m.tools);
      CallsAreBlocks(out, t);
      assert out[n..] == Render(mine, t);
      assert ReadsAs(out[n..], mine, t);
      forall blocks | ReadsAs(out[n..], blocks, t)
        ensures CompleteSpans(out, m.tools) == Bodies(Reported(blocks, t))
      {
        BlocksUnique(blocks, mine, t);
        BodiesButLast(mine);
      }
    } else {
      NoCallsWithoutTools(out, m.tools);
    }
  }

  lemma BodiesButLast(blocks: seq<Block>)
    ensures blocks != [] ==> Bodies(blocks)[..|blocks| - 1] == Bodies(blocks[..|blocks| - 1])
  {
  }

  lemma TokensMean(toks: seq<Tok>, channel: Option<Channel>)
    ensures Split(toks, channel).content == TokensOf(toks, channel, false)
    ensures Split(toks, channel).reasoning == TokensOf(toks, channel, true)
  {
    match channel
    case Some(ch) => SplitMeans(toks, ch);
    case None => SplitWithoutChannel(toks);
  }

  lemma AnswerMeans(m: Model, out: seq<Tok>, max: nat)
    requires Accounted(out, m.tools)
    ensures AnswerFits(m, out, max, AnswerOf(m, out, max))
  {
    hide Strip, Calls, Split, OfChannel, Render, Decode, CompleteSpans, ReasoningText, ReasoningFits, SpansFit, TextEnd;
    var n := TextEnd(out, m.tools);
    KeptIsBeforeCalls(out, m.tools, n);
    TokensMean(out[..n], m.channel);
    ReasoningMeans(m, TokensOf(out[..n], m.channel, true));
    SpansMean(m, out);
    if m.channel.None? {
      NoReasoning(m, TokensOf(out[..n], m.channel, true));
    }
  }

  lemma NoReasoning(m: Model, toks: seq<Tok>)
    requires m.channel.None?
    ensures ReasoningText(m, toks) == None && ReasoningFits(m, toks, None)
  {
  }

  // ── Completions ─────────────────────────────────────────────────────────────

  /** Calls were issued and the last one is closed. */
  predicate CallsDone(out: seq<Tok>, tools: Option<ToolMarkers>) {
    tools.Some? && tools.value.open in out && !InCall(out, tools.value)
  }

  predicate OpensNone(tools: Option<ToolMarkers>, next: Tok) {
    tools.None? || next != tools.value.open
  }

  /** What the model picks when it has consumed the prompt and this much of the completion. */
  function Picked(m: Model, prompt: seq<Tok>, out: seq<Tok>): Tok {
    m.pick(|out|, Stamp(m.id, prompt + out))
  }

  predicate EndsTurn(m: Model, out: seq<Tok>, next: Tok) {
    next in m.stop || (CallsDone(out, m.tools) && OpensNone(m.tools, next))
  }

  lemma HaltsMeans(m: Model, prompt: seq<Tok>, out: seq<Tok>, next: Tok)
    ensures Halts(m, out, next) <==> EndsTurn(m, out, next)
    ensures NextPick(m, Stamp(m.id, prompt), out) == Picked(m, prompt, out)
  {
    if m.tools.Some? {
      InsideMeans(out, m.tools.value);
    }
    hide InCall, Strip;
    assert Stamp(m.id, prompt) + Stamp(m.id, out) == Stamp(m.id, prompt + out);
  }

  /** Every token of a completion is the model's pick after what precedes it and does not end the turn; it
      stops short of the budget exactly when the next pick ends the turn: a stop token, or any token but an
      open marker behind a closed call. */
  lemma CompletionMeans(m: Model, req: Request)
    ensures var out := FreshCompletion(m, req);
            && |out| <= req.maxTokens
            && (forall i | 0 <= i < |out| ::
                  out[i] == Picked(m, req.promptIds, out[..i]) && !EndsTurn(m, out[..i], out[i]))
            && (|out| < req.maxTokens ==> EndsTurn(m, out, Picked(m, req.promptIds, out)))
  {
    hide OneByOne, NextPick, Halts, EndsTurn, Picked;
    var base, out := Stamp(m.id, req.promptIds), FreshCompletion(m, req);
    OneByOneIsTranscript(m, base, [], req.maxTokens);
    forall i | 0 <= i < |out| ensures out[i] == Picked(m, req.promptIds, out[..i]) && !EndsTurn(m, out[..i], out[i]) {
      HaltsMeans(m, req.promptIds, out[..i], out[i]);
    }
    HaltsMeans(m, req.promptIds, out, Picked(m, req.promptIds, out));
  }

  // ── Over whole runs ─────────────────────────────────────────────────────────

  /** What the decode loop produces is text followed by call blocks. */
  lemma {:induction false} CompletionIsAccounted(m: Model, base: seq<Slot>, out: seq<Tok>, max: nat)
    requires Accounted(out, m.tools)
    ensures Accounted(OneByOne(m, base, out, max), m.tools)
    decreases max - |out|
  {
    hide NextPick, Accounted, Strip, Calls, TurnOver, Inside;
    if |out| >= max {
    } else {
      var next := NextPick(m, base, out);
      if !Halts(m, out, next) {
        if m.tools.Some? && (next == m.tools.value.open || Inside(Calls(out, m.tools))) {
          AccountCall(out, m.tools.value, next);
        } else {
          AccountText(out, m.tools, next);
        }
        CompletionIsAccounted(m, base, out + [next], max);
      }
    }
  }

  /** In any run, whatever was served before: the answer to a completed request fits its completion on a
      freshly started engine, all its calls parse, and what was streamed is the answer's text, and its
      reasoning before trimming, up to a tail that may end in U+FFFD. */
  lemma CompletedAnswer(models: map<string, Model>, states: seq<EngineState>, reqs: seq<Request>,
                        outs: seq<Outcome>, n: nat)
    requires Serving(models, states, reqs, outs) && n < |reqs|
    requires outs[n].Done? && (reqs[n].streaming || reqs[n].accelerated == None)
    ensures reqs[n].model in models
    ensures var m, req, o := models[reqs[n].model], reqs[n], outs[n]; var out := FreshCompletion(m, req);
            && AnswerFits(m, out, req.maxTokens, o.answer)
            && (forall span | span in o.answer.spans :: m.parses(span))
            && (if req.streaming
                then CaughtUp(o.answer.text, None, Sent(o.deltas, false)) &&
                     CaughtUp(Decode(TokensOf(out[..TextEnd(out, m.tools)], m.channel, true), m.bytesOf),
                              NameLine(m.channel), Sent(o.deltas, true))
                else o.deltas == [])
  {
    hide StreamsAnswer, AnswerOf, AnswerFits, OneByOne, CaughtUp, TextEnd, Decode, TokensOf;
    AnswersIgnoreHistory(models, states, reqs, outs, n);
    var m, req, o := models[reqs[n].model], reqs[n], outs[n];
    var out := FreshCompletion(m, req);
    NothingAccounted(m.tools);
    CompletionIsAccounted(m, Stamp(m.id, req.promptIds), [], req.maxTokens);
    AnswerMeans(m, out, req.maxTokens);
    CallsParse(models, states, reqs, outs, n);
    if req.streaming {
      StreamsFit(m, out, req.maxTokens, o.deltas);
    }
  }

  lemma CallsParse(models: map<string, Model>, states: seq<EngineState>, reqs: seq<Request>,
                   outs: seq<Outcome>, n: nat)
    requires Serving(models, states, reqs, outs) && n < |reqs|
    requires outs[n].Done? && !Accelerated(reqs[n])
    ensures reqs[n].model in models
    ensures forall span | span in outs[n].answer.spans :: models[reqs[n].model].parses(span)
    ensures !reqs[n].streaming ==> outs[n].deltas == []
  {
    hide StreamsAnswer, OneByOne, CompleteSpans, ReasoningText, Decode, Split, Kept;
    ResidentIsCatalogued(models, states, reqs, outs, n);
    assert Served(states[n], models, reqs[n], states[n + 1], outs[n]);
  }

  lemma StreamsFit(m: Model, out: seq<Tok>, max: nat, deltas: seq<Delta>)
    requires Accounted(out, m.tools) && StreamsAnswer(m, out, deltas)
    ensures CaughtUp(AnswerOf(m, out, max).text, None, Sent(deltas, false))
    ensures CaughtUp(Decode(TokensOf(out[..TextEnd(out, m.tools)], m.channel, true), m.bytesOf),
                     NameLine(m.channel), Sent(deltas, true))
  {
    hide Split, OfChannel, Strip, Calls, Render, Decode, CaughtUp, Sent, CompleteSpans, ReasoningText, TextEnd;
    KeptIsBeforeCalls(out, m.tools, TextEnd(out, m.tools));
    TokensMean(out[..TextEnd(out, m.tools)], m.channel);
  }

  /** A request that ends in a call that does not parse had such a call among those of its completion. */
  lemma BadCallIsThere(models: map<string, Model>, states: seq<EngineState>, reqs: seq<Request>,
                       outs: seq<Outcome>, n: nat)
    requires Serving(models, states, reqs, outs) && n < |reqs|
    requires outs[n] == BadToolCall && (reqs[n].streaming || reqs[n].accelerated == None)
    ensures reqs[n].model in models
    ensures var m := models[reqs[n].model]; var out := FreshCompletion(m, reqs[n]);
            exists spans, span ::
              SpansFit(out[TextEnd(out, m.tools)..], m.tools, spans) && span in spans && !m.parses(span)
  {
    hide StreamsAnswer, OneByOne, CompleteSpans, AnswerOf, SpansFit, TextEnd;
    ResidentIsCatalogued(models, states, reqs, outs, n);
    assert Served(states[n], models, reqs[n], states[n + 1], outs[n]);
    var m := models[reqs[n].model];
    var out := FreshCompletion(m, reqs[n]);
    NothingAccounted(m.tools);
    CompletionIsAccounted(m, Stamp(m.id, reqs[n].promptIds), [], reqs[n].maxTokens);
    SpansMean(m, out);
    var span :| span in CompleteSpans(out, m.tools) && !m.parses(span);
  }

  /** The answer to what the model's own greedy path returned: all of it is text and reasoning. */
  lemma AcceleratedAnswer(models: map<string, Model>, states: seq<EngineState>, reqs: seq<Request>,
                          outs: seq<Outcome>, n: nat)
    requires Serving(models, states, reqs, outs) && n < |reqs|
    requires outs[n].Done? && !reqs[n].streaming && reqs[n].accelerated.Some?
    ensures reqs[n].model in models
    ensures var m := models[reqs[n].model].(tools := None);
            AnswerFits(m, reqs[n].accelerated.value, reqs[n].maxTokens, outs[n].answer)
  {
    hide StreamsAnswer, OneByOne, CompleteSpans, AnswerFits, AnswerOf;
    ResidentIsCatalogued(models, states, reqs, outs, n);
    assert Served(states[n], models, reqs[n], states[n + 1], outs[n]);
    var m := models[reqs[n].model].(tools := None);
    AnswerMeans(m, reqs[n].accelerated.value, reqs[n].maxTokens);
  }

  /** Loading fails for exactly the models that are not in the catalogue, unless the engine refuses because of
      a panic. */
  lemma LoadFailsExactly(models: map<string, Model>, states: seq<EngineState>, reqs: seq<Request>,
                         outs: seq<Outcome>, n: nat)
    requires Serving(models, states, reqs, outs) && n < |reqs|
    ensures outs[n] == LoadFailed <==> reqs[n].model !in models && !PanicBefore(outs, n)
  {
    hide StreamsAnswer, OneByOne, CompleteSpans, AnswerOf, PanicBefore, Boundary, Reused;
    ResidentIsCatalogued(models, states, reqs, outs, n);
    PrefixHeld(models, states, reqs, outs, reqs[n].model, n);
    assert Served(states[n], models, reqs[n], states[n + 1], outs[n]);
    hide KeptExactly;
  }

  /** What a request leaves for the next one: its prompt without the part no later turn repeats, once the
      cache has come that far. */
  lemma KeptMeans(req: Request, o: Outcome)
    ensures var suffix := if req.suffixTokens.Some? then req.suffixTokens.value else 0;
            match KeptBy(req, o)
            case Some(p) =>
              && o in {BadToolCall, ForwardFailed(true)} + (if o.Done? then {o} else {})
              && p <= req.promptIds && |p| == if suffix <= |req.promptIds| then |req.promptIds| - suffix else 0
            case None => o in {LockPoisoned, LoadFailed, Panicked, ForwardFailed(false)}
  {
  }
}
