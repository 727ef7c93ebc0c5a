/** The single-resident model manager: loading and swapping models, reusing the cached prefix of an
    earlier prompt, chunked prefill, decoding, and the final answer. */
module Engine {
  import opened Prelude
  import opened Utf8
  import opened Streaming
  import opened ToolSpans
  import opened DecodeLoop

  // ── Requests and answers ────────────────────────────────────────────────────

  /** A request after rendering and tokenizing. `suffixTokens` counts the tokens of the part of the
      prompt that no later turn repeats, when there is one; `accelerated` is what the model's own
      greedy path returned, when it was taken. */
  datatype Request = Request(
    model: string, promptIds: seq<Tok>, suffixTokens: Option<nat>,
    prefixEnabled: bool, chunkSetting: Option<nat>,
    accelerated: Option<seq<Tok>>, maxTokens: nat, streaming: bool)

  /** How much of the prompt a later turn can reuse. */
  function Boundary(req: Request): (b: nat)
    ensures b <= |req.promptIds|
  {
    match req.suffixTokens
    case None => |req.promptIds|
    case Some(n) => if n <= |req.promptIds| then |req.promptIds| - n else 0
  }

  function ChunkSize(req: Request): (c: nat)
    ensures c >= 1
  {
    match req.chunkSetting
    case None => 2048
    case Some(n) => if n >= 1 then n else 1
  }

  datatype FinishReason = ToolCalls | Stop | Length

  datatype Answer = Answer(text: Text, reasoning: Option<Text>, spans: seq<seq<Tok>>, completionTokens: nat, finish: FinishReason)

  /** A forward pass may fail before or after the cache was frozen for the next request. */
  datatype Outcome =
    | LockPoisoned
    | LoadFailed
    | Panicked
    | ForwardFailed(frozen: bool)
    | BadToolCall
    | Done(answer: Answer, deltas: seq<Delta>)

  // ── The answer of a completion ──────────────────────────────────────────────

  /** The captured calls that are complete: a call still open at the end was cut off by the budget,
      unless calls have no close token. */
  function CompleteSpans(out: seq<Tok>, tools: Option<ToolMarkers>): seq<seq<Tok>> {
    var blocks := Calls(out, tools);
    if Inside(blocks) && tools.Some? && tools.value.close.Some? then Bodies(blocks)[..|blocks| - 1] else Bodies(blocks)
  }

  function FinishOf(m: Model, out: seq<Tok>, max: nat): FinishReason {
    if CompleteSpans(out, m.tools) != [] then ToolCalls
    else if |out| < max then Stop
    else Length
  }

  function ReasoningText(m: Model, toks: seq<Tok>): Option<Text> {
    if m.channel.None? || toks == [] then None else
    var text := m.trim(TargetText(Decode(toks, m.bytesOf), NameLine(m.channel)));
    if text == [] then None else Some(text)
  }

  /** Cutting the opening line off a text leaves a text. */
  function TargetText(text: Text, skip: Option<Text>): (r: Text)
    ensures r == Target(text, skip)
  {
    TargetIsText(text, skip);
    Target(text, skip)
  }

  lemma TargetIsText(text: Text, skip: Option<Text>)
    ensures Valid(Target(text, skip))
  {
    hide Lossy, Valid;
    if skip.Some? && skip.value <= text {
      LossyKeepsValid(text);
      var k := LossyPrefix(text, skip.value);
      LossyIsValid(text[k..]);
      assert Target(text, skip) == Lossy(text[k..]);
    }
  }

  function AnswerOf(m: Model, out: seq<Tok>, max: nat): Answer {
    var parts := Split(Kept(out, m.tools), m.channel);
    Answer(Decode(parts.content, m.bytesOf), ReasoningText(m, parts.reasoning),
           CompleteSpans(out, m.tools), |out|, FinishOf(m, out, max))
  }

  /** The reason given is the reason the completion ended: "stop" means a stop token was picked next,
      "length" that the budget is used up and no call was completed. */
  lemma FinishIsJustified(m: Model, base: seq<Slot>, out: seq<Tok>, max: nat)
    requires IsTranscript(m, base, out, max) && Accounted(out, m.tools)
    ensures FinishOf(m, out, max) == Stop ==> |out| < max && NextPick(m, base, out) in m.stop
    ensures FinishOf(m, out, max) == Length ==> |out| == max && CompleteSpans(out, m.tools) == []
    ensures FinishOf(m, out, max) == ToolCalls <==> CompleteSpans(out, m.tools) != []
  {
    hide NextPick, IsPartial, Strip, Render, Calls, WellFormed;
    if m.tools.Some? { OpenIsAccounted(out, m.tools.value); }
  }

  /** What a finished completion leads to: an answer, unless one of its calls does not parse. */
  predicate Answered(m: Model, out: seq<Tok>, max: nat, o: Outcome) {
    if forall span | span in CompleteSpans(out, m.tools) :: m.parses(span)
    then o.Done? && o.answer == AnswerOf(m, out, max)
    else o == BadToolCall
  }

  lemma AnsweredKinds(m: Model, out: seq<Tok>, max: nat, o: Outcome)
    requires Answered(m, out, max, o)
    ensures o.Done? || o == BadToolCall
  {
  }

  /** The streamed text of both channels is the answer's text, up to a tail that may end in U+FFFD. */
  predicate StreamsAnswer(m: Model, out: seq<Tok>, deltas: seq<Delta>) {
    var parts := Split(Kept(out, m.tools), m.channel);
    && CaughtUp(Decode(parts.content, m.bytesOf), None, Sent(deltas, false))
    && CaughtUp(Decode(parts.reasoning, m.bytesOf), NameLine(m.channel), Sent(deltas, true))
  }

  // ── The engine over a run, abstractly ───────────────────────────────────────

  /** The resident model and the prompt prefix whose cache is kept for it. */
  datatype Loaded = Loaded(model: Model, prefix: Option<seq<Tok>>)

  datatype EngineState = EngineState(poisoned: bool, resident: Option<Loaded>)

  /** The resident after loading on demand; a fresh load starts without a prefix. */
  function LoadOnDemand(st: EngineState, models: map<string, Model>, id: string): Option<Loaded> {
    if st.resident.Some? && st.resident.value.model.id == id then st.resident
    else if id in models then Some(Loaded(models[id], None))
    else None
  }

  /** How many prompt tokens a request takes from the kept prefix. */
  function Reused(prefix: Option<seq<Tok>>, req: Request): nat {
    if req.prefixEnabled && prefix.Some? && |prefix.value| < |req.promptIds| && prefix.value <= req.promptIds
    then |prefix.value| else 0
  }

  predicate Accelerated(req: Request) {
    !req.streaming && req.accelerated.Some?
  }

  /** The completion of a request on a freshly loaded model with an empty cache. */
  function FreshCompletion(m: Model, req: Request): seq<Tok> {
    OneByOne(m, Stamp(m.id, req.promptIds), [], req.maxTokens)
  }

  /** The prefix a request leaves behind: the reusable part of its own prompt, if it got that far. */
  function KeptBy(req: Request, o: Outcome): Option<seq<Tok>> {
    if o.Done? || o == BadToolCall || o == ForwardFailed(true) then Some(req.promptIds[..Boundary(req)]) else None
  }

  /** What one request may do on a loaded model. The outcome of a completed request depends on the
      request alone. */
  ghost predicate ServedBy(r: Loaded, req: Request, st': EngineState, o: Outcome) {
    if Accelerated(req) then
      st' == EngineState(false, Some(r)) && Answered(r.model.(tools := None), req.accelerated.value, req.maxTokens, o)
    else if Reused(r.prefix, req) > Boundary(req) then
      st' == EngineState(true, Some(r.(prefix := None))) && o == Panicked
    else
      && st' == EngineState(false, Some(r.(prefix := if req.prefixEnabled then KeptBy(req, o) else r.prefix)))
      && if o.ForwardFailed? then o.frozen ==> req.prefixEnabled else Completed(r.model, req, o)
  }

  predicate Completed(m: Model, req: Request, o: Outcome) {
    && Answered(m, FreshCompletion(m, req), req.maxTokens, o)
    && (o.Done? && req.streaming ==> StreamsAnswer(m, FreshCompletion(m, req), o.deltas))
    && (o.Done? && !req.streaming ==> o.deltas == [])
  }

  ghost predicate Served(st: EngineState, models: map<string, Model>, req: Request, st': EngineState, o: Outcome) {
    if st.poisoned then st' == st && o == LockPoisoned else
    match LoadOnDemand(st, models, req.model)
    case None => st' == EngineState(false, None) && o == LoadFailed
    case Some(r) => ServedBy(r, req, st', o)
  }

  // ── The engine as it runs ───────────────────────────────────────────────────

  /** A cache frozen at the end of an earlier prompt, with the tokens it covers. */
  datatype PrefixCache = PrefixCache(promptIds: seq<Tok>, cache: KvCache)

  class Resident {
    const model: Model
    var prefix: Option<PrefixCache>

    constructor (model: Model)
      ensures this.model == model && prefix == None
    {
      this.model := model;
      prefix := None;
    }
  }

  class MlxEngine {
    var resident: Resident?
    var poisoned: bool

    constructor ()
      ensures Valid() && State() == EngineState(false, None)
      ensures fresh(Repr())
    {
      resident := null;
      poisoned := false;
    }

    ghost function Repr(): set<object>
      reads this, resident
    {
      {this}
      + (if resident == null then {} else {resident})
      + (if resident != null && resident.prefix.Some? then {resident.prefix.value.cache} else {})
    }

    /** The kept cache has consumed exactly its prompt prefix, on the resident model. */
    ghost predicate Valid()
      reads Repr()
    {
      resident != null && resident.prefix.Some? ==>
        resident.prefix.value.cache.consumed == Stamp(resident.model.id, resident.prefix.value.promptIds)
    }

    ghost function State(): EngineState
      reads this, resident
    {
      EngineState(poisoned,
                  if resident == null then None
                  else Some(Loaded(resident.model, if resident.prefix.None? then None else Some(resident.prefix.value.promptIds))))
    }

    /** Takes the kept cache when the prompt extends its prefix, else starts an empty one. */
    method Resume(req: Request) returns (cache: KvCache, start: nat)
      requires Valid() && resident != null
      modifies resident`prefix
      ensures start == Reused(old(State()).resident.value.prefix, req)
      ensures cache.consumed == Stamp(resident.model.id, req.promptIds[..start])
      ensures resident.prefix == if req.prefixEnabled then None else old(resident.prefix)
      ensures Valid() && cache !in Repr() && (fresh(cache) || cache in old(Repr()))
    {
      var prior: Option<PrefixCache> := None;
      if req.prefixEnabled {
        prior := resident.prefix;
        resident.prefix := None;
      }
      if prior.Some? && |prior.value.promptIds| < |req.promptIds|
         && req.promptIds[..|prior.value.promptIds|] == prior.value.promptIds {
        cache := prior.value.cache;
        start := |prior.value.promptIds|;
      } else {
        cache := new KvCache();
        start := 0;
      }
    }

    /** Runs the prompt through the model in fixed-size pieces, leaving the last piece to the caller. */
    static method PrefillChunks(model: string, prompt: seq<Tok>, boundary: nat, chunk: nat, cache: KvCache, from: nat)
      returns (ok: bool, start: nat)
      requires from <= boundary <= |prompt| && chunk >= 1
      requires cache.consumed == Stamp(model, prompt[..from])
      modifies cache
      ensures from <= start <= boundary
      ensures ok ==> cache.consumed == Stamp(model, prompt[..start]) && boundary - start <= chunk
    {
      hide Stamp;
      start, ok := from, true;
      while boundary - start > chunk
        invariant from <= start <= boundary && cache.consumed == Stamp(model, prompt[..start])
      {
        ok := cache.Forward(model, prompt[start..start + chunk]);
        if !ok { return; }
        StampConcat(model, prompt, start, start + chunk);
        start := start + chunk;
      }
    }

    /** Freezes the cache for the next request. */
    method Freeze(prompt: seq<Tok>, cache: KvCache)
      requires resident != null && cache.consumed == Stamp(resident.model.id, prompt) && cache !in Repr()
      modifies resident`prefix
      ensures Valid() && resident.prefix.Some? && resident.prefix.value.promptIds == prompt
      ensures fresh(resident.prefix.value.cache) && cache !in Repr()
    {
      var frozen := cache.Snapshot();
      resident.prefix := Some(PrefixCache(prompt, frozen));
    }

    /** Brings the cache to the end of the prompt: resumes from the kept prefix when the prompt extends
        it, runs the rest in chunks, and freezes a copy at the reuse boundary. The subtraction that
        guards the chunk loop panics when the resumed prefix reaches beyond the boundary. */
    method Prefill(req: Request) returns (o: Outcome, cache: KvCache)
      requires Valid() && resident != null && req.promptIds != []
      modifies Repr()
      ensures Valid() && poisoned == old(poisoned) && resident == old(resident)
      ensures fresh(Repr() - old(Repr())) && cache !in Repr() && (fresh(cache) || cache in old(Repr()))
      ensures var m := resident.model; var was := old(State()).resident.value.prefix; var now := State().resident.value.prefix;
              match o
              case Panicked => Reused(was, req) > Boundary(req) && now == None
              case Done(_, _) =>
                && Reused(was, req) <= Boundary(req)
                && cache.consumed == Stamp(m.id, req.promptIds)
                && now == if req.prefixEnabled then Some(req.promptIds[..Boundary(req)]) else was
              case ForwardFailed(frozen) =>
                && Reused(was, req) <= Boundary(req) && (frozen ==> req.prefixEnabled)
                && now == if req.prefixEnabled then KeptBy(req, o) else was
              case _ => false
    {
      hide Stamp, Boundary, ChunkSize, Reused;
      var m, prompt, boundary := resident.model, req.promptIds, Boundary(req);
      var start;
      cache, start := Resume(req);
      ReusedIsShorter(old(State()).resident.value.prefix, req);
      if start > boundary {
        return Panicked, cache;
      }
      var ok;
      ok, start := PrefillChunks(m.id, prompt, boundary, ChunkSize(req), cache, start);
      if !ok {
        return ForwardFailed(false), cache;
      }
      if boundary == |prompt| {
        ok := cache.Forward(m.id, prompt[start..]);
        if !ok {
          return ForwardFailed(false), cache;
        }
        StampConcat(m.id, prompt, start, |prompt|);
        if req.prefixEnabled {
          assert prompt[..boundary] == prompt;
          Freeze(prompt[..boundary], cache);
        }
      } else {
        if boundary > start {
          ok := cache.Forward(m.id, prompt[start..boundary]);
          if !ok {
            return ForwardFailed(false), cache;
          }
          StampConcat(m.id, prompt, start, boundary);
        }
        if req.prefixEnabled {
          Freeze(prompt[..boundary], cache);
        }
        ok := cache.Forward(m.id, prompt[boundary..]);
        if !ok {
          return ForwardFailed(req.prefixEnabled), cache;
        }
        StampConcat(m.id, prompt, boundary, |prompt|);
      }
      return Done(NO_ANSWER, []), cache;
    }

    // ── One request ───────────────────────────────────────────────────────────

    /** Serves one request: load or swap the model on demand, then generate. */
    method RunGeneration(models: map<string, Model>, req: Request) returns (o: Outcome)
      requires Valid() && req.promptIds != [] && forall id | id in models :: models[id].id == id
      modifies Repr()
      ensures Valid() && fresh(Repr() - old(Repr()))
      ensures Served(old(State()), models, req, State(), o)
    {
      hide ServedBy;
      if poisoned {
        return LockPoisoned;
      }
      if resident == null || resident.model.id != req.model {
        resident := null;
        if req.model !in models {
          return LoadFailed;
        }
        resident := new Resident(models[req.model]);
      }
      o := Generate(req);
    }

    /** Prefill, decode, flush, and compose the answer on the resident model. */
    method Generate(req: Request) returns (o: Outcome)
      requires Valid() && req.promptIds != [] && !poisoned && resident != null
      modifies Repr()
      ensures Valid() && fresh(Repr() - old(Repr()))
      ensures ServedBy(old(State()).resident.value, req, State(), o)
    {
      hide Answered, StreamsAnswer, OneByOne, Captures, Views, Streams, Kept, Split, Stamp, Boundary, Reused;
      var m := resident.model;
      if !req.streaming && req.accelerated.Some? {
        NoTools(req.accelerated.value);
        o := Conclude(m.(tools := None), req.accelerated.value, [], false, req.maxTokens, []);
        return;
      }
      var prefilled, cache := Prefill(req);
      if prefilled.Panicked? {
        poisoned := true;
        return Panicked;
      }
      if prefilled.ForwardFailed? {
        return prefilled;
      }
      o := DecodeAndConclude(m, cache, req);
      if o != ForwardFailed(req.prefixEnabled) { AnsweredKinds(m, FreshCompletion(m, req), req.maxTokens, o); }
    }
  }

  lemma NoTools(out: seq<Tok>)
    ensures Bodies(Calls(out, None)) == [] && !Inside(Calls(out, None)) && Accounted(out, None)
  {
  }

  /** The part of a request that follows prefill; it touches nothing but the request's own cache. */
  method DecodeAndConclude(m: Model, cache: KvCache, req: Request) returns (o: Outcome)
    requires cache.consumed == Stamp(m.id, req.promptIds)
    modifies cache
    ensures o == ForwardFailed(req.prefixEnabled) || Completed(m, req, o)
  {
    hide Answered, StreamsAnswer, OneByOne, IsTranscript, Captures, Views, Streams, Kept, Split, Stamp;
    var ok, d;
    ghost var lead;
    ok, d, lead := PipelinedDecode(m, cache, req.maxTokens, req.streaming, cache.consumed);
    if !ok {
      return ForwardFailed(req.prefixEnabled);
    }
    var deltas := Flush(m, d, req.streaming, lead);
    CapturesKnow(d, m.tools);
    o := Conclude(m, d.out, d.spans, d.inTool, req.maxTokens, deltas);
  }

  lemma CapturesKnow(d: Decoded, tools: Option<ToolMarkers>)
    requires Captures(d, tools)
    ensures d.spans == Bodies(Calls(d.out, tools)) && d.inTool == Inside(Calls(d.out, tools))
    ensures Accounted(d.out, tools)
  {
  }

  /** One more delta per channel releases what was held back. */
  method Flush(m: Model, d: Decoded, streaming: bool, ghost lead: Bytes) returns (deltas: seq<Delta>)
    requires Views(m, d, Kept(d.out, m.tools), Split(Kept(d.out, m.tools), m.channel).inReasoning, streaming)
    requires Streams(m, d, lead)
    ensures streaming ==> StreamsAnswer(m, d.out, deltas)
    ensures !streaming ==> deltas == []
    ensures d.deltas <= deltas
  {
    hide Kept, Split, Streamed, CaughtUp, Sent, NameLine, TokenBytes;
    if !streaming {
      return [];
    }
    var d' := d;
    ghost var lead' := lead;
    if d.reasoning != [] {
      d', lead' := Emit(m, d', true, lead');
    } else {
      NothingToFlush(m, d, lead);
    }
    d', lead' := Emit(m, d', false, lead');
    deltas := d'.deltas;
  }

  lemma NothingToFlush(m: Model, d: Decoded, lead: Bytes)
    requires Streams(m, d, lead) && d.reasoning == []
    ensures CaughtUp(Decode([], m.bytesOf), NameLine(m.channel), Sent(d.deltas, true))
  {
    hide Settled, Sent;
    SentIsPrefix(TokenBytes([], m.bytesOf), NameLine(m.channel), lead, d.emittedReasoning, Sent(d.deltas, true));
    assert Lossy([]) == [];
  }

  /** Drops a truncated call, parses the complete ones, strips them from the text, splits the
      channels, and names the reason for finishing. */
  method Conclude(m: Model, out: seq<Tok>, spans: seq<seq<Tok>>, inTool: bool, max: nat, deltas: seq<Delta>)
    returns (o: Outcome)
    requires spans == Bodies(Calls(out, m.tools)) && inTool == Inside(Calls(out, m.tools)) && Accounted(out, m.tools)
    ensures Answered(m, out, max, o)
    ensures o.Done? ==> o.deltas == deltas
  {
    hide Calls, Split, Strip, Render, Lossy, Valid, NameLine, TokenBytes;
    var complete := spans;
    if inTool && m.tools.Some? && m.tools.value.close.Some? {
      complete := spans[..|spans| - 1];
    }
    for i := 0 to |complete|
      invariant forall j | 0 <= j < i :: m.parses(complete[j])
    {
      if !m.parses(complete[i]) {
        return BadToolCall;
      }
    }
    var toks := out;
    if m.tools.Some? && spans != [] {
      toks := StripToolSpans(out, m.tools.value.open, m.tools.value.close);
    } else if m.tools.Some? {
      TextBeforeCalls(out, m.tools.value);
      OpenIsAccounted(out, m.tools.value);
    }
    assert toks == Kept(out, m.tools);
    var text, reasoning;
    match m.channel {
      case Some(ch) =>
        var content, thought := SplitChannels(toks, ch);
        text := Decode(content, m.bytesOf);
        reasoning := ReasoningText(m, thought);
      case None =>
        SplitWithoutChannel(toks);
        text := Decode(toks, m.bytesOf);
        reasoning := None;
    }
    var finish := if complete != [] then ToolCalls else if |out| < max then Stop else Length;
    return Done(Answer(text, reasoning, complete, |out|, finish), deltas);
  }

  // ── Runs ────────────────────────────────────────────────────────────────────

  /** A run of requests, each served from the state the one before left. */
  ghost predicate Serving(models: map<string, Model>, states: seq<EngineState>, reqs: seq<Request>,
                          outs: seq<Outcome>)
  {
    && |states| == |reqs| + 1 && |outs| == |reqs|
    && states[0] == EngineState(false, None)
    && (forall id | id in models :: models[id].id == id)
    && forall i | 0 <= i < |reqs| :: Served(states[i], models, reqs[i], states[i + 1], outs[i])
  }

  /** The resident model is always the catalogue's model of its name. */
  ghost predicate SameModel(st: EngineState, models: map<string, Model>) {
    st.resident.Some? ==>
      st.resident.value.model.id in models && models[st.resident.value.model.id] == st.resident.value.model
  }

  lemma {:induction false} ResidentIsCatalogued(models: map<string, Model>, states: seq<EngineState>,
                                                reqs: seq<Request>, outs: seq<Outcome>, n: nat)
    requires Serving(models, states, reqs, outs) && n < |states|
    ensures SameModel(states[n], models)
  {
    hide Answered, StreamsAnswer, OneByOne;
    if n == 0 {
    } else {
      ResidentIsCatalogued(models, states, reqs, outs, n - 1);
      assert Served(states[n - 1], models, reqs[n - 1], states[n], outs[n - 1]);
    }
  }

  /** Whatever was served before, on whichever models, a request that completes is answered as if the
      engine had just been started: reuse, chunking and lookahead never show in an answer. */
  lemma AnswersIgnoreHistory(models: map<string, Model>, states: seq<EngineState>, reqs: seq<Request>,
                             outs: seq<Outcome>, n: nat)
    requires Serving(models, states, reqs, outs) && n < |reqs|
    requires outs[n].Done? && !Accelerated(reqs[n])
    ensures reqs[n].model in models
    ensures var m := models[reqs[n].model];
            && outs[n].answer == AnswerOf(m, FreshCompletion(m, reqs[n]), reqs[n].maxTokens)
            && (reqs[n].streaming ==> StreamsAnswer(m, FreshCompletion(m, reqs[n]), outs[n].deltas))
  {
    hide StreamsAnswer, OneByOne, AnswerOf, CompleteSpans;
    ResidentIsCatalogued(models, states, reqs, outs, n);
    assert Served(states[n], models, reqs[n], states[n + 1], outs[n]);
  }

  // ── Which prefix is kept, and when a request panics ─────────────────────────

  /** The request may take the kept prefix, and replaces it by its own. */
  predicate UsesPrefix(req: Request) {
    req.prefixEnabled && !Accelerated(req)
  }

  /** After the first `n` requests the prefix kept for `model` is the one request `i` left: since then
      only that model was asked for, and only by requests that do not touch the prefix. */
  predicate Keeps(reqs: seq<Request>, outs: seq<Outcome>, model: string, i: nat, n: nat)
    requires n <= |reqs| && n <= |outs|
  {
    && i < n && reqs[i].model == model && UsesPrefix(reqs[i]) && KeptBy(reqs[i], outs[i]).Some?
    && forall k | i < k < n :: reqs[k].model == model && !UsesPrefix(reqs[k])
  }

  predicate PanicBefore(outs: seq<Outcome>, n: nat)
    requires n <= |outs|
  {
    exists k | 0 <= k < n :: outs[k] == Panicked
  }

  /** The prefix held for a model: none when another model is resident. */
  function PrefixFor(st: EngineState, model: string): Option<seq<Tok>> {
    if st.resident.Some? && st.resident.value.model.id == model then st.resident.value.prefix else None
  }

  lemma KeepsNext(reqs: seq<Request>, outs: seq<Outcome>, model: string, i: nat, n: nat)
    requires n < |reqs| && n < |outs|
    ensures Keeps(reqs, outs, model, i, n + 1) <==>
            if i == n then reqs[n].model == model && UsesPrefix(reqs[n]) && KeptBy(reqs[n], outs[n]).Some?
            else Keeps(reqs, outs, model, i, n) && reqs[n].model == model && !UsesPrefix(reqs[n])
  {
  }

  /** What serving one request does to the prefix held for each model. */
  lemma PrefixStep(st: EngineState, models: map<string, Model>, req: Request, st': EngineState, o: Outcome,
                   model: string)
    requires Served(st, models, req, st', o) && SameModel(st, models) && !st'.poisoned
    requires forall id | id in models :: models[id].id == id
    ensures PrefixFor(st', model) ==
      if req.model != model then None
      else if UsesPrefix(req) then KeptBy(req, o)
      else PrefixFor(st, model)
  {
    hide Answered, StreamsAnswer, OneByOne, Boundary, Reused;
  }

  predicate KeepsAs(reqs: seq<Request>, outs: seq<Outcome>, model: string, i: nat, n: nat, p: seq<Tok>)
    requires n <= |reqs| && n <= |outs|
  {
    Keeps(reqs, outs, model, i, n) && KeptBy(reqs[i], outs[i]) == Some(p)
  }

  ghost predicate LeftBySome(reqs: seq<Request>, outs: seq<Outcome>, model: string, n: nat, p: seq<Tok>)
    requires n <= |reqs| && n <= |outs|
  {
    exists i :: KeepsAs(reqs, outs, model, i, n, p)
  }

  /** The prefix held for the model is the one some request keeps for it. */
  ghost predicate KeptExactly(st: EngineState, reqs: seq<Request>, outs: seq<Outcome>, model: string, n: nat)
    requires n <= |reqs| && n <= |outs|
  {
    forall p :: PrefixFor(st, model) == Some(p) <==> LeftBySome(reqs, outs, model, n, p)
  }

  /** One more request keeps the account of who left the prefix. */
  lemma KeptStep(st: EngineState, st': EngineState, reqs: seq<Request>, outs: seq<Outcome>, model: string, n: nat)
    requires n < |reqs| && n < |outs| && KeptExactly(st, reqs, outs, model, n)
    requires PrefixFor(st', model) ==
      if reqs[n].model != model then None
      else if UsesPrefix(reqs[n]) then KeptBy(reqs[n], outs[n])
      else PrefixFor(st, model)
    ensures KeptExactly(st', reqs, outs, model, n + 1)
  {
    hide KeptBy, UsesPrefix;
    forall i: nat, p ensures KeepsAs(reqs, outs, model, i, n + 1, p) <==>
      if i == n then reqs[n].model == model && UsesPrefix(reqs[n]) && KeptBy(reqs[n], outs[n]) == Some(p)
      else KeepsAs(reqs, outs, model, i, n, p) && reqs[n].model == model && !UsesPrefix(reqs[n])
    {
      KeepsNext(reqs, outs, model, i, n);
    }
    hide Keeps, KeepsAs, PrefixFor;
    forall p ensures PrefixFor(st', model) == Some(p) <==> LeftBySome(reqs, outs, model, n + 1, p) {
      if LeftBySome(reqs, outs, model, n + 1, p) {
        var i: nat :| KeepsAs(reqs, outs, model, i, n + 1, p);
        assert i != n ==> KeepsAs(reqs, outs, model, i, n, p);
        assert i != n ==> LeftBySome(reqs, outs, model, n, p);
      }
      if PrefixFor(st', model) == Some(p) {
        if UsesPrefix(reqs[n]) {
          assert KeepsAs(reqs, outs, model, n, n + 1, p);
        } else {
          var i: nat :| KeepsAs(reqs, outs, model, i, n, p);
          assert i != n by { KeeperIsEarlier(reqs, outs, model, i, n, p); }
          assert KeepsAs(reqs, outs, model, i, n + 1, p);
        }
      }
    }
  }

  lemma KeeperIsEarlier(reqs: seq<Request>, outs: seq<Outcome>, model: string, i: nat, n: nat, p: seq<Tok>)
    requires n <= |reqs| && n <= |outs| && KeepsAs(reqs, outs, model, i, n, p)
    ensures i < n
  {
  }

  /** In any run the prefix held for a model is the reusable part of the prompt of the last request that
      left one, provided every request since asked for that model and did not touch the prefix; a state
      is poisoned exactly after a panic. */
  lemma {:induction false} PrefixHeld(models: map<string, Model>, states: seq<EngineState>, reqs: seq<Request>,
                                      outs: seq<Outcome>, model: string, n: nat)
    requires Serving(models, states, reqs, outs) && n < |states|
    ensures states[n].poisoned <==> PanicBefore(outs, n)
    ensures !states[n].poisoned ==> KeptExactly(states[n], reqs, outs, model, n)
  {
    if n > 0 {
      PrefixHeld(models, states, reqs, outs, model, n - 1);
      ResidentIsCatalogued(models, states, reqs, outs, n - 1);
      var st, req, st', o := states[n - 1], reqs[n - 1], states[n], outs[n - 1];
      assert Served(st, models, req, st', o);
      hide Served, KeptExactly, PrefixFor, Serving;
      PoisonStep(st, models, req, st', o);
      if !st'.poisoned {
        PrefixStep(st, models, req, st', o, model);
        KeptStep(st, st', reqs, outs, model, n - 1);
      }
    } else {
      NothingKept(states[0], reqs, outs, model);
    }
  }

  lemma NothingKept(st: EngineState, reqs: seq<Request>, outs: seq<Outcome>, model: string)
    requires st.resident.None?
    ensures KeptExactly(st, reqs, outs, model, 0)
  {
  }

  lemma PoisonStep(st: EngineState, models: map<string, Model>, req: Request, st': EngineState, o: Outcome)
    requires Served(st, models, req, st', o)
    ensures st'.poisoned <==> st.poisoned || o == Panicked
  {
    hide StreamsAnswer, OneByOne, AnswerOf, CompleteSpans, Reused, Boundary;
  }

  /** The prompt extends what request `i` left for this model, and that reaches beyond the reuse boundary. */
  predicate Overruns(kept: seq<Tok>, req: Request) {
    kept <= req.promptIds && Boundary(req) < |kept| < |req.promptIds|
  }

  /** In any run, request `n` panics exactly when no request panicked before, its model is in the
      catalogue, and the prefix an earlier request left for that model is extended by its prompt and
      reaches beyond its own reuse boundary. After a panic every request is refused. */
  lemma PanicExactly(models: map<string, Model>, states: seq<EngineState>, reqs: seq<Request>,
                     outs: seq<Outcome>, n: nat)
    requires Serving(models, states, reqs, outs) && n < |reqs|
    ensures outs[n] == Panicked <==>
              && !PanicBefore(outs, n) && reqs[n].model in models && UsesPrefix(reqs[n])
              && exists i: nat :: Keeps(reqs, outs, reqs[n].model, i, n) && Overruns(KeptBy(reqs[i], outs[i]).value, reqs[n])
    ensures outs[n] == LockPoisoned <==> PanicBefore(outs, n)
  {
    var model := reqs[n].model;
    PrefixHeld(models, states, reqs, outs, model, n);
    ResidentIsCatalogued(models, states, reqs, outs, n);
    var st := states[n];
    assert Served(st, models, reqs[n], states[n + 1], outs[n]);
    hide Serving, PanicBefore, KeptBy;
    PanicStep(st, models, reqs[n], states[n + 1], outs[n]);
    hide Served;
    if !st.poisoned {
      hide Overruns;
      if PrefixFor(st, model).Some? {
        var p := PrefixFor(st, model).value;
        assert LeftBySome(reqs, outs, model, n, p);
        var i: nat :| KeepsAs(reqs, outs, model, i, n, p);
        assert Keeps(reqs, outs, model, i, n) && KeptBy(reqs[i], outs[i]).value == p;
      }
      forall i: nat | Keeps(reqs, outs, model, i, n) ensures PrefixFor(st, model) == KeptBy(reqs[i], outs[i]) {
        assert KeepsAs(reqs, outs, model, i, n, KeptBy(reqs[i], outs[i]).value);
        assert LeftBySome(reqs, outs, model, n, KeptBy(reqs[i], outs[i]).value);
      }
    }
  }

  lemma PanicStep(st: EngineState, models: map<string, Model>, req: Request, st': EngineState, o: Outcome)
    requires Served(st, models, req, st', o) && SameModel(st, models)
    ensures o == LockPoisoned <==> st.poisoned
    ensures o == Panicked <==>
              && !st.poisoned && req.model in models && UsesPrefix(req)
              && PrefixFor(st, req.model).Some? && Overruns(PrefixFor(st, req.model).value, req)
  {
    hide StreamsAnswer, OneByOne, AnswerOf, CompleteSpans, Boundary;
  }

  /** Two requests suffice, when the first completes: a wholly reusable prompt of three tokens, then a
      prompt that adds one token and declares its last two not reusable. */
  lemma PanicExample(models: map<string, Model>, states: seq<EngineState>, reqs: seq<Request>, outs: seq<Outcome>)
    requires Serving(models, states, reqs, outs) && |reqs| == 2
    requires reqs[0].promptIds == [1, 2, 3] && reqs[0].suffixTokens == None
    requires reqs[1].promptIds == [1, 2, 3, 4] && reqs[1].suffixTokens == Some(2)
    requires reqs[0].model == reqs[1].model && UsesPrefix(reqs[0]) && UsesPrefix(reqs[1]) && outs[0].Done?
    ensures outs[1] == Panicked
  {
    hide StreamsAnswer, OneByOne, AnswerOf, CompleteSpans;
    PanicExactly(models, states, reqs, outs, 1);
    AnswersIgnoreHistory(models, states, reqs, outs, 0);
    assert [1, 2, 3] <= reqs[1].promptIds;
    assert reqs[0].promptIds[..3] == [1, 2, 3];
    assert Keeps(reqs, outs, reqs[1].model, 0, 1);
  }

  /** There is such a run: a model without tools or channels, asked for no tokens. */
  lemma PanicRun()
    returns (models: map<string, Model>, states: seq<EngineState>, reqs: seq<Request>, outs: seq<Outcome>)
    ensures Serving(models, states, reqs, outs) && |reqs| == 2 && outs[0].Done? && outs[1] == Panicked
    ensures reqs[0].promptIds == [1, 2, 3] && reqs[0].suffixTokens == None
    ensures reqs[1].promptIds == [1, 2, 3, 4] && reqs[1].suffixTokens == Some(2)
  {
    hide StreamsAnswer, AnswerOf;
    var m := Model("m", [], None, None,
                   (n: nat, base: seq<Slot>) => 0, (t: Tok) => [], (t: Text) => t, (span: seq<Tok>) => true);
    var first := Request("m", [1, 2, 3], None, true, None, None, 0, false);
    var second := Request("m", [1, 2, 3, 4], Some(2), true, None, None, 0, false);
    models := map["m" := m];
    reqs := [first, second];
    outs := [Done(AnswerOf(m, [], 0), []), Panicked];
    var left := Some([1, 2, 3]);
    states := [EngineState(false, None), EngineState(false, Some(Loaded(m, left))),
               EngineState(true, Some(Loaded(m, None)))];
    assert first.promptIds[..Boundary(first)] == [1, 2, 3];
    assert FreshCompletion(m, first) == [];
    assert Served(states[0], models, first, states[1], outs[0]);
    assert second.promptIds[..3] == [1, 2, 3];
    assert Reused(left, second) == 3 && Boundary(second) == 2;
    assert Served(states[1], models, second, states[2], outs[1]);
  }

  /** Families whose whole prompt is reusable can never panic. */
  lemma WholePromptNeverPanics(st: EngineState, models: map<string, Model>, req: Request, st': EngineState, o: Outcome)
    requires Served(st, models, req, st', o) && req.suffixTokens == None
    ensures o != Panicked
  {
    hide StreamsAnswer, OneByOne, AnswerOf, CompleteSpans;
  }

  /** Only an enabled prefix is ever reused, and never the whole prompt. */
  lemma ReusedIsShorter(prefix: Option<seq<Tok>>, req: Request)
    requires req.promptIds != []
    ensures Reused(prefix, req) < |req.promptIds|
    ensures Reused(prefix, req) > 0 ==> req.prefixEnabled
  {
  }

  const NO_ANSWER := Answer([], None, [], 0, Stop)

  lemma StampConcat(id: string, prompt: seq<Tok>, i: nat, j: nat)
    requires i <= j <= |prompt|
    ensures Stamp(id, prompt[..i]) + Stamp(id, prompt[i..j]) == Stamp(id, prompt[..j])
    ensures prompt[i..|prompt|] == prompt[i..] && prompt[..|prompt|] == prompt
  {
  }
}
