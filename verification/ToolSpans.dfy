/** Telling a completion's answer, reasoning and tool calls apart: the two passes made over a
    finished completion, and the one-pass account kept while it is being decoded. */
module ToolSpans {
  import opened Prelude
  import opened Utf8
  import opened Streaming

  /** Markers of a tool-call block; without a close token a block runs to the next open or the end. */
  datatype ToolMarkers = ToolMarkers(open: Tok, close: Option<Tok>)

  datatype Channel = Channel(open: Tok, close: Tok, name: Text)

  // ── Two passes over a finished completion ───────────────────────────────────

  datatype Stripped = Stripped(kept: seq<Tok>, inside: bool)

  /** What stands outside tool-call blocks, and whether the end is inside one. */
  function Strip(out: seq<Tok>, t: ToolMarkers): Stripped {
    if out == [] then Stripped([], false) else
    var s, tok := Strip(out[..|out| - 1], t), out[|out| - 1];
    if tok == t.open then s.(inside := true)
    else if s.inside then (if t.close == Some(tok) then s.(inside := false) else s)
    else s.(kept := s.kept + [tok])
  }

  datatype Parts = Parts(content: seq<Tok>, reasoning: seq<Tok>, inReasoning: bool)

  /** Content and reasoning, the channel markers belonging to neither. */
  function Split(toks: seq<Tok>, channel: Option<Channel>): Parts {
    if toks == [] then Parts([], [], false) else
    var p, tok := Split(toks[..|toks| - 1], channel), toks[|toks| - 1];
    if channel.Some? && tok == channel.value.open then p.(inReasoning := true)
    else if channel.Some? && tok == channel.value.close then p.(inReasoning := false)
    else if p.inReasoning then p.(reasoning := p.reasoning + [tok])
    else p.(content := p.content + [tok])
  }

  method StripToolSpans(out: seq<Tok>, open: Tok, close: Option<Tok>) returns (kept: seq<Tok>)
    ensures kept == Strip(out, ToolMarkers(open, close)).kept
  {
    kept := [];
    var inside := false;
    for i := 0 to |out|
      invariant Strip(out[..i], ToolMarkers(open, close)) == Stripped(kept, inside)
    {
      var tok := out[i];
      assert out[..i + 1][..i] == out[..i];
      if tok == open {
        inside := true;
      } else if inside {
        if close == Some(tok) {
          inside := false;
        }
      } else {
        kept := kept + [tok];
      }
    }
    assert out[..|out|] == out;
  }

  method SplitChannels(out: seq<Tok>, ch: Channel) returns (content: seq<Tok>, reasoning: seq<Tok>)
    ensures content == Split(out, Some(ch)).content && reasoning == Split(out, Some(ch)).reasoning
  {
    content, reasoning := [], [];
    var inReasoning := false;
    for i := 0 to |out|
      invariant Split(out[..i], Some(ch)) == Parts(content, reasoning, inReasoning)
    {
      var tok := out[i];
      assert out[..i + 1][..i] == out[..i];
      if tok == ch.open {
        inReasoning := true;
      } else if tok == ch.close {
        inReasoning := false;
      } else if inReasoning {
        reasoning := reasoning + [tok];
      } else {
        content := content + [tok];
      }
    }
    assert out[..|out|] == out;
  }

  /** Splitting loses only channel markers. */
  lemma {:induction false} SplitAccounts(toks: seq<Tok>, channel: Option<Channel>)
    ensures |toks| >= |Split(toks, channel).content| + |Split(toks, channel).reasoning|
    ensures forall x: Tok | channel.Some? ==> x != channel.value.open && x != channel.value.close ::
              multiset(toks)[x] == multiset(Split(toks, channel).content)[x] + multiset(Split(toks, channel).reasoning)[x]
  {
    if toks == [] {
    } else {
      var init, last := toks[..|toks| - 1], toks[|toks| - 1];
      SplitAccounts(init, channel);
      assert toks == init + [last];
      SplitStep(init, last, channel);
      hide Split;
    }
  }

  lemma {:induction false} SplitWithoutChannel(toks: seq<Tok>)
    ensures Split(toks, None) == Parts(toks, [], false)
  {
    if toks == [] {
    } else {
      SplitWithoutChannel(toks[..|toks| - 1]);
      assert toks == toks[..|toks| - 1] + [toks[|toks| - 1]];
    }
  }

  // ── One pass while decoding ─────────────────────────────────────────────────

  /** One captured call: its tokens, and whether its close token was seen. */
  datatype Block = Block(body: seq<Tok>, closed: bool)

  function BlockToks(b: Block, t: ToolMarkers): seq<Tok> {
    [t.open] + b.body + if b.closed && t.close.Some? then [t.close.value] else []
  }

  function Render(blocks: seq<Block>, t: ToolMarkers): seq<Tok> {
    if blocks == [] then [] else Render(blocks[..|blocks| - 1], t) + BlockToks(blocks[|blocks| - 1], t)
  }

  function Bodies(blocks: seq<Block>): seq<seq<Tok>> {
    seq(|blocks|, i requires 0 <= i < |blocks| => blocks[i].body)
  }

  predicate WellFormed(b: Block, t: ToolMarkers) {
    && t.open !in b.body
    && (t.close.Some? ==> t.close.value !in b.body)
    && (b.closed ==> t.close.Some?)
  }

  predicate Inside(blocks: seq<Block>) {
    blocks != [] && !blocks[|blocks| - 1].closed
  }

  /** The turn is the runtime's: calls were issued, none is open, and the next token opens none. */
  predicate TurnOver(tools: Option<ToolMarkers>, out: seq<Tok>, next: Tok) {
    tools.Some? && tools.value.open in out && !Strip(out, tools.value).inside && next != tools.value.open
  }

  /** The blocks after one more token. */
  function Advance(blocks: seq<Block>, t: ToolMarkers, next: Tok): seq<Block> {
    if next == t.open then blocks + [Block([], false)]
    else if Inside(blocks) then
      var n, last := |blocks| - 1, blocks[|blocks| - 1];
      blocks[n := if t.close == Some(next) then last.(closed := true) else last.(body := last.body + [next])]
    else blocks
  }

  /** The call blocks of a completion, token by token. */
  function Calls(out: seq<Tok>, tools: Option<ToolMarkers>): seq<Block> {
    if tools.None? || out == [] then []
    else Advance(Calls(out[..|out| - 1], tools), tools.value, out[|out| - 1])
  }

  /** The text of a completion: what the stripping pass keeps. */
  function Kept(out: seq<Tok>, tools: Option<ToolMarkers>): seq<Tok> {
    match tools
    case None => out
    case Some(t) => Strip(out, t).kept
  }

  /** Every token of `out` is accounted for: text without any open marker first, then only call blocks. */
  predicate Accounted(out: seq<Tok>, tools: Option<ToolMarkers>) {
    match tools
    case None => true
    case Some(t) =>
      var blocks := Calls(out, tools);
      && out == Kept(out, tools) + Render(blocks, t)
      && t.open !in Kept(out, tools)
      && (forall i | 0 <= i < |blocks| :: WellFormed(blocks[i], t))
      && Strip(out, t).inside == Inside(blocks)
  }

  lemma RenderStep(blocks: seq<Block>, t: ToolMarkers, next: Tok)
    requires next == t.open || Inside(blocks)
    requires forall i | 0 <= i < |blocks| :: WellFormed(blocks[i], t)
    ensures Render(Advance(blocks, t, next), t) == Render(blocks, t) + [next]
    ensures var after := Advance(blocks, t, next); forall i | 0 <= i < |after| :: WellFormed(after[i], t)
    ensures Inside(Advance(blocks, t, next)) == (next == t.open || t.close != Some(next))
  {
    var after := Advance(blocks, t, next);
    var n := |after| - 1;
    assert after[..n] == if next == t.open then blocks else blocks[..n];
    if next != t.open {
      assert BlockToks(after[n], t) == BlockToks(blocks[n], t) + [next];
      assert Render(blocks[..n], t) + (BlockToks(blocks[n], t) + [next]) == Render(blocks, t) + [next];
    } else {
      assert BlockToks(after[n], t) == [next];
    }
  }

  lemma StripStep(out: seq<Tok>, next: Tok, t: ToolMarkers)
    ensures var s := Strip(out, t);
            Strip(out + [next], t) ==
              if next == t.open then s.(inside := true)
              else if s.inside then (if t.close == Some(next) then s.(inside := false) else s)
              else s.(kept := s.kept + [next])
  {
    assert (out + [next])[..|out|] == out;
  }

  lemma SplitStep(toks: seq<Tok>, next: Tok, channel: Option<Channel>)
    ensures var p := Split(toks, channel);
            Split(toks + [next], channel) ==
              if channel.Some? && next == channel.value.open then p.(inReasoning := true)
              else if channel.Some? && next == channel.value.close then p.(inReasoning := false)
              else if p.inReasoning then p.(reasoning := p.reasoning + [next])
              else p.(content := p.content + [next])
  {
    assert (toks + [next])[..|toks|] == toks;
  }

  lemma CallsStep(out: seq<Tok>, tools: Option<ToolMarkers>, next: Tok)
    ensures Calls(out + [next], tools) == if tools.None? then [] else Advance(Calls(out, tools), tools.value, next)
  {
    assert (out + [next])[..|out|] == out;
  }

  /** A token that belongs to a call goes to the blocks. */
  lemma AccountCall(out: seq<Tok>, t: ToolMarkers, next: Tok)
    requires Accounted(out, Some(t)) && (next == t.open || Inside(Calls(out, Some(t))))
    ensures Accounted(out + [next], Some(t)) && Kept(out + [next], Some(t)) == Kept(out, Some(t))
  {
    hide Render, BlockToks, Strip, WellFormed, Advance, Calls;
    RenderStep(Calls(out, Some(t)), t, next);
    StripStep(out, next, t);
    CallsStep(out, Some(t), next);
    var kept := Kept(out, Some(t));
    assert kept + (Render(Calls(out, Some(t)), t) + [next]) == out + [next];
  }

  /** As long as no call was issued, every other token is text. */
  lemma AccountText(out: seq<Tok>, tools: Option<ToolMarkers>, next: Tok)
    requires Accounted(out, tools) && !TurnOver(tools, out, next)
    requires tools.Some? ==> next != tools.value.open && !Inside(Calls(out, tools))
    ensures Accounted(out + [next], tools) && Kept(out + [next], tools) == Kept(out, tools) + [next]
    ensures Calls(out, tools) == Calls(out + [next], tools) == []
  {
    CallsStep(out, tools, next);
    if tools.Some? {
      hide Strip, Calls, Render;
      var t := tools.value;
      StripStep(out, next, t);
      OpenIsAccounted(out, t);
      RenderNone(t);
    }
  }

  lemma RenderNone(t: ToolMarkers)
    ensures Render([], t) == []
  {
  }

  lemma OpenIsAccounted(out: seq<Tok>, t: ToolMarkers)
    requires Accounted(out, Some(t))
    ensures t.open in out <==> Calls(out, Some(t)) != []
  {
    hide Calls, Strip;
    var blocks := Calls(out, Some(t));
    if blocks != [] {
      var n := |blocks| - 1;
      var toks := BlockToks(blocks[n], t);
      assert toks[0] == t.open;
      assert Render(blocks, t)[|Render(blocks[..n], t)|] == t.open;
      assert t.open in Render(blocks, t);
    }
  }

  lemma NothingAccounted(tools: Option<ToolMarkers>)
    ensures Accounted([], tools) && Calls([], tools) == [] && Kept([], tools) == []
  {
  }

  /** Once a call opens, everything later belongs to call blocks: the text is what precedes the
      first open marker, and without one it is everything. */
  lemma TextBeforeCalls(out: seq<Tok>, t: ToolMarkers)
    requires Accounted(out, Some(t))
    ensures Kept(out, Some(t)) <= out
    ensures t.open !in out ==> Kept(out, Some(t)) == out
    ensures t.open in out ==> |Kept(out, Some(t))| < |out| && out[|Kept(out, Some(t))|] == t.open
  {
    hide Strip, Calls, WellFormed;
    var blocks, kept := Calls(out, Some(t)), Kept(out, Some(t));
    OpenIsAccounted(out, t);
    if blocks == [] {
      assert kept + [] == kept;
    } else {
      RenderOpens(blocks, t);
    }
  }

  lemma {:induction false} RenderOpens(blocks: seq<Block>, t: ToolMarkers)
    requires blocks != []
    ensures Render(blocks, t) != [] && Render(blocks, t)[0] == t.open
  {
    var n := |blocks| - 1;
    if n == 0 {
    } else {
      RenderOpens(blocks[..n], t);
    }
  }

  // ── What the passes find, position by position ──────────────────────────────

  /** The reasoning channel is open behind these tokens: a marker opened it and none has closed it since. */
  predicate InChannel(toks: seq<Tok>, ch: Channel) {
    exists j | 0 <= j < |toks| :: toks[j] == ch.open && NoneBehind(toks, j, ch.close)
  }

  predicate NoneBehind(toks: seq<Tok>, j: nat, tok: Tok) {
    forall k | j < k < |toks| :: toks[k] != tok
  }

  /** The tokens of one channel, in order: those that are no marker and stand where it is open, or not. */
  function OfChannel(toks: seq<Tok>, ch: Channel, reasoning: bool): seq<Tok> {
    if toks == [] then [] else
    var init, last := toks[..|toks| - 1], toks[|toks| - 1];
    OfChannel(init, ch, reasoning)
    + if last in {ch.open, ch.close} || InChannel(init, ch) != reasoning then [] else [last]
  }

  lemma InChannelStep(init: seq<Tok>, last: Tok, ch: Channel)
    ensures InChannel(init + [last], ch) <==> last == ch.open || (InChannel(init, ch) && last != ch.close)
  {
    var toks := init + [last];
    if last == ch.open {
      assert toks[|init|] == ch.open && NoneBehind(toks, |init|, ch.close);
    } else {
      if InChannel(init, ch) && last != ch.close {
        var j :| 0 <= j < |init| && init[j] == ch.open && NoneBehind(init, j, ch.close);
        assert toks[j] == ch.open && NoneBehind(toks, j, ch.close);
      }
      if InChannel(toks, ch) {
        var j :| 0 <= j < |toks| && toks[j] == ch.open && NoneBehind(toks, j, ch.close);
        assert j < |init| && toks[|init|] == last;
        assert forall k | 0 <= k < |init| :: toks[k] == init[k];
        assert init[j] == ch.open && NoneBehind(init, j, ch.close);
      }
    }
  }

  /** The splitting pass sends every token to the channel that is open where it stands. */
  lemma {:induction false} SplitMeans(toks: seq<Tok>, ch: Channel)
    ensures Split(toks, Some(ch)) == Parts(OfChannel(toks, ch, false), OfChannel(toks, ch, true), InChannel(toks, ch))
  {
    hide InChannel;
    if toks == [] {
      assert !InChannel([], ch) by { NothingInChannel(ch); }
    } else {
      var init, last := toks[..|toks| - 1], toks[|toks| - 1];
      SplitMeans(init, ch);
      assert toks == init + [last];
      InChannelStep(init, last, ch);
    }
  }

  lemma NothingInChannel(ch: Channel)
    ensures !InChannel([], ch)
  {
  }

  /** A call is open behind these tokens: a marker opened it and none has closed it since. */
  predicate InCall(out: seq<Tok>, t: ToolMarkers) {
    exists j | 0 <= j < |out| :: OpensCall(out, t, j)
  }

  predicate OpensCall(out: seq<Tok>, t: ToolMarkers, j: nat)
    requires j < |out|
  {
    out[j] == t.open && (t.close.Some? ==> NoneBehind(out, j, t.close.value))
  }

  lemma InCallStep(init: seq<Tok>, last: Tok, t: ToolMarkers)
    ensures InCall(init + [last], t) <==> last == t.open || (InCall(init, t) && t.close != Some(last))
  {
    var out := init + [last];
    assert forall k | 0 <= k < |init| :: out[k] == init[k];
    if last == t.open {
      assert OpensCall(out, t, |init|);
    } else {
      if InCall(init, t) && t.close != Some(last) {
        var j :| 0 <= j < |init| && OpensCall(init, t, j);
        assert OpensCall(out, t, j);
      }
      if InCall(out, t) {
        var j :| 0 <= j < |out| && OpensCall(out, t, j);
        assert j < |init| && out[|init|] == last;
        assert OpensCall(init, t, j);
      }
    }
  }

  lemma {:induction false} InsideMeans(out: seq<Tok>, t: ToolMarkers)
    ensures Strip(out, t).inside <==> InCall(out, t)
  {
    if out == [] {
    } else {
      var init, last := out[..|out| - 1], out[|out| - 1];
      InsideMeans(init, t);
      assert out == init + [last];
      InCallStep(init, last, t);
      hide InCall;
    }
  }

  /** The text ends where the first call opens, or with the completion. */
  predicate TextEnds(out: seq<Tok>, tools: Option<ToolMarkers>, n: nat) {
    && n <= |out|
    && match tools
       case None => n == |out|
       case Some(t) => t.open !in out[..n] && (n < |out| ==> out[n] == t.open)
  }

  lemma KeptIsBeforeCalls(out: seq<Tok>, tools: Option<ToolMarkers>, n: nat)
    requires Accounted(out, tools) && TextEnds(out, tools, n)
    ensures Kept(out, tools) == out[..n]
  {
    hide Strip, Calls, Render;
    if tools.Some? {
      var t, kept := tools.value, Kept(out, tools);
      TextBeforeCalls(out, t);
      assert forall i | 0 <= i < n :: out[..n][i] == out[i];
      assert forall i | 0 <= i < |kept| :: kept[i] == out[i];
    } else {
      assert out[..n] == out;
    }
  }

  /** A call block as it is written: its open marker, tokens that are no marker, its close marker if any. */
  predicate IsBlock(b: Block, t: ToolMarkers) {
    WellFormed(b, t) && (b.closed ==> t.close != Some(t.open))
  }

  /** Tokens can be read as call blocks in one way only. */
  lemma {:induction false} BlocksUnique(a: seq<Block>, b: seq<Block>, t: ToolMarkers)
    requires forall x | x in a :: IsBlock(x, t)
    requires forall x | x in b :: IsBlock(x, t)
    requires Render(a, t) == Render(b, t)
    ensures a == b
    decreases |a|
  {
    if a == [] || b == [] {
      NothingRendered(a, t);
      NothingRendered(b, t);
    } else {
      var x, y := a[|a| - 1], b[|b| - 1];
      var front, front' := Render(a[..|a| - 1], t), Render(b[..|b| - 1], t);
      SameLastOpen(front, x, front', y, t);
      SameLastOpen(front', y, front, x, t);
      assert front == (front + BlockToks(x, t))[..|front|] == front';
      assert BlockToks(x, t) == (front + BlockToks(x, t))[|front|..] == BlockToks(y, t);
      SameBlock(x, y, t);
      BlocksUnique(a[..|a| - 1], b[..|b| - 1], t);
      assert a == a[..|a| - 1] + [x] && b == b[..|b| - 1] + [y];
    }
  }

  lemma NothingRendered(a: seq<Block>, t: ToolMarkers)
    ensures Render(a, t) == [] <==> a == []
  {
  }

  lemma SameLastOpen(front: seq<Tok>, x: Block, front': seq<Tok>, y: Block, t: ToolMarkers)
    requires IsBlock(x, t) && IsBlock(y, t) && front + BlockToks(x, t) == front' + BlockToks(y, t)
    ensures |front'| <= |front|
  {
    var all := front + BlockToks(x, t);
    assert (front' + BlockToks(y, t))[|front'|] == t.open;
    assert forall k | 0 < k < |BlockToks(x, t)| :: BlockToks(x, t)[k] != t.open;
    assert forall k | |front| <= k < |all| :: all[k] == BlockToks(x, t)[k - |front|];
  }

  lemma SameBlock(x: Block, y: Block, t: ToolMarkers)
    requires IsBlock(x, t) && IsBlock(y, t) && BlockToks(x, t) == BlockToks(y, t)
    ensures x == y
  {
    var s := BlockToks(x, t);
    assert x.closed ==> s[|s| - 1] == t.close.value;
    assert y.closed ==> s[|s| - 1] == t.close.value;
    assert x.body == s[1..1 + |x.body|] && y.body == s[1..1 + |y.body|];
    assert forall i | 0 <= i < |x.body| :: x.body[i] == s[1 + i];
    assert forall i | 0 <= i < |y.body| :: y.body[i] == s[1 + i];
  }

  lemma CallsAreBlocks(out: seq<Tok>, t: ToolMarkers)
    requires Accounted(out, Some(t))
    ensures forall b | b in Calls(out, Some(t)) :: IsBlock(b, t)
  {
    hide Strip, Render;
    var blocks := Calls(out, Some(t));
    ClosedByOther(out, t);
    forall b | b in blocks ensures IsBlock(b, t) {
      var i :| 0 <= i < |blocks| && blocks[i] == b;
      assert WellFormed(blocks[i], t);
    }
  }

  lemma {:induction false} ClosedByOther(out: seq<Tok>, t: ToolMarkers)
    ensures forall b | b in Calls(out, Some(t)) :: b.closed ==> t.close != Some(t.open)
  {
    if out == [] {
    } else {
      ClosedByOther(out[..|out| - 1], t);
    }
  }
}
