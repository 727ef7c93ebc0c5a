/** The in-RAM graph derived from the event log: four maps, grown one event at a time, and
    what they mean in terms of the log alone. */
module EventGraph {
  import opened Prelude
  import opened Format

  datatype Stream = Stream(id: u64, name: string, openedAt: Time, closedAt: Option<Time>, eventIds: seq<u64>)

  /** "Event `sourceEventId` points at me via `kind`." */
  datatype InverseRef = InverseRef(sourceEventId: u64, kind: byte)

  datatype Graph = Graph(
    byId: map<u64, Event>,
    byStream: map<u64, seq<u64>>,
    inverseRefs: map<u64, seq<InverseRef>>,
    streams: map<u64, Stream>)

  const EMPTY := Graph(map[], map[], map[], map[])

  function Lookup<T>(m: map<u64, seq<T>>, k: u64): seq<T> {
    if k in m then m[k] else []
  }

  /** `entry(k).or_default().push(v)`. */
  function Push<T>(m: map<u64, seq<T>>, k: u64, v: T): map<u64, seq<T>> {
    m[k := Lookup(m, k) + [v]]
  }

  function AbsorbRefs(m: map<u64, seq<InverseRef>>, id: u64, refs: seq<Ref>): map<u64, seq<InverseRef>> {
    if refs == [] then m else
    var last := refs[|refs| - 1];
    Push(AbsorbRefs(m, id, refs[..|refs| - 1]), last.targetEventId, InverseRef(id, last.kind))
  }

  function AbsorbStream(m: map<u64, Stream>, ev: Event): map<u64, Stream> {
    var s := if ev.streamId in m then m[ev.streamId] else Stream(ev.streamId, "", ev.createdAt, None, []);
    m[ev.streamId := s.(openedAt := if ev.createdAt < s.openedAt then ev.createdAt else s.openedAt,
                        eventIds := s.eventIds + [ev.id])]
  }

  function Absorb(g: Graph, ev: Event): Graph {
    Graph(g.byId[ev.id := ev],
          Push(g.byStream, ev.streamId, ev.id),
          AbsorbRefs(g.inverseRefs, ev.id, ev.refs),
          AbsorbStream(g.streams, ev))
  }

  /** The graph of a log, events absorbed in order. */
  function Build(log: seq<Event>): Graph {
    if log == [] then EMPTY else Absorb(Build(log[..|log| - 1]), log[|log| - 1])
  }

  lemma BuildSnoc(log: seq<Event>, ev: Event)
    ensures Build(log + [ev]) == Absorb(Build(log), ev)
  {
    assert (log + [ev])[..|log|] == log;
  }

  // ── What the maps mean ──────────────────────────────────────────────────────

  /** Ids are 1, 2, 3, … in log order. */
  predicate Sequential(log: seq<Event>) {
    forall i | 0 <= i < |log| :: log[i].id == i + 1
  }

  /** Ids of the events of one stream, in log order. */
  function IdsOf(log: seq<Event>, stream: u64): seq<u64> {
    if log == [] then [] else
    var last := log[|log| - 1];
    IdsOf(log[..|log| - 1], stream) + if last.streamId == stream then [last.id] else []
  }

  function CountRefs(refs: seq<Ref>, kind: byte, target: u64): nat {
    if refs == [] then 0 else
    var last := refs[|refs| - 1];
    CountRefs(refs[..|refs| - 1], kind, target)
    + if last.kind == kind && last.targetEventId == target then 1 else 0
  }

  predicate Ascending(ids: seq<u64>) {
    forall i, j | 0 <= i < j < |ids| :: ids[i] < ids[j]
  }

  /** `t` is the earliest creation time among the events of the stream. */
  predicate IsOpening(log: seq<Event>, stream: u64, t: Time) {
    && (exists i | 0 <= i < |log| :: log[i].streamId == stream && log[i].createdAt == t)
    && (forall i | 0 <= i < |log| && log[i].streamId == stream :: t <= log[i].createdAt)
  }

  /** An event is found under its id, and under no other id is there anything. */
  lemma {:induction false} ByIdMeaning(log: seq<Event>)
    requires Sequential(log)
    ensures forall id: u64 :: id in Build(log).byId <==> 1 <= id <= |log|
    ensures forall i | 0 <= i < |log| :: log[i].id in Build(log).byId && Build(log).byId[log[i].id] == log[i]
  {
    if log == [] {
    } else {
      ByIdMeaning(log[..|log| - 1]);
    }
  }

  /** A stream's list is the stream's ids in log order, and nothing is listed for absent streams. */
  lemma {:induction false} ByStreamMeaning(log: seq<Event>, stream: u64)
    ensures stream in Build(log).byStream <==> IdsOf(log, stream) != []
    ensures Lookup(Build(log).byStream, stream) == IdsOf(log, stream)
  {
    if log == [] {
    } else {
      ByStreamMeaning(log[..|log| - 1], stream);
    }
  }

  /** Membership and order of a stream's ids. */
  lemma {:induction false} IdsOfMeaning(log: seq<Event>, stream: u64)
    requires Sequential(log)
    ensures Ascending(IdsOf(log, stream))
    ensures forall id: u64 :: id in IdsOf(log, stream) <==> 1 <= id <= |log| && log[id - 1].streamId == stream
  {
    hide IdsOf, Ascending;
    IdsOfStep(log, stream);
    if log == [] {
    } else {
      var init, last := log[..|log| - 1], log[|log| - 1];
      IdsOfMeaning(init, stream);
      if last.streamId == stream {
        AscendingSnoc(IdsOf(init, stream), last.id);
      }
    }
  }

  lemma IdsOfStep(log: seq<Event>, stream: u64)
    ensures log == [] ==> IdsOf(log, stream) == [] && Ascending([])
    ensures log != [] ==>
              var init, last := log[..|log| - 1], log[|log| - 1];
              IdsOf(log, stream) ==
              if last.streamId == stream then IdsOf(init, stream) + [last.id] else IdsOf(init, stream)
  {
  }

  lemma AscendingSnoc(ids: seq<u64>, id: u64)
    requires Ascending(ids) && forall x | x in ids :: x < id
    ensures Ascending(ids + [id])
  {
    assert forall i | 0 <= i < |ids| :: ids[i] in ids;
  }

  /** The stream record agrees with the stream list and opens at the stream's earliest event. */
  lemma {:induction false} StreamsMeaning(log: seq<Event>, stream: u64)
    ensures stream in Build(log).streams <==> IdsOf(log, stream) != []
    ensures stream in Build(log).streams ==>
              var s := Build(log).streams[stream];
              && s.id == stream && s.name == "" && s.closedAt == None
              && s.eventIds == IdsOf(log, stream)
              && IsOpening(log, stream, s.openedAt)
  {
    hide Build, IsOpening;
    BuildStreams(log);
    if log == [] {
    } else {
      var init, last := log[..|log| - 1], log[|log| - 1];
      StreamsMeaning(init, stream);
      assert log == init + [last];
      if stream !in Build(init).streams {
        NoEventOf(init, stream);
        if last.streamId == stream { FirstOpening(init, last); }
      } else {
        OpeningStep(init, last, stream, Build(init).streams[stream].openedAt);
      }
    }
  }

  lemma BuildStreams(log: seq<Event>)
    ensures Build(log).streams ==
      if log == [] then map[] else AbsorbStream(Build(log[..|log| - 1]).streams, log[|log| - 1])
  {
  }

  lemma FirstOpening(init: seq<Event>, last: Event)
    requires forall i | 0 <= i < |init| :: init[i].streamId != last.streamId
    ensures IsOpening(init + [last], last.streamId, last.createdAt)
  {
    assert (init + [last])[|init|] == last;
  }

  lemma OpeningStep(init: seq<Event>, last: Event, stream: u64, t: Time)
    requires IsOpening(init, stream, t)
    ensures IsOpening(init + [last], stream, if last.streamId == stream && last.createdAt < t then last.createdAt else t)
  {
    var log := init + [last];
    var i :| 0 <= i < |init| && init[i].streamId == stream && init[i].createdAt == t;
    assert log[i] == init[i] && log[|init|] == last;
  }

  lemma {:induction false} NoEventOf(log: seq<Event>, stream: u64)
    requires IdsOf(log, stream) == []
    ensures forall i | 0 <= i < |log| :: log[i].streamId != stream
  {
    if log == [] {
    } else {
      NoEventOf(log[..|log| - 1], stream);
    }
  }

  /** The inverse refs are the exact converse of the forward refs, with multiplicity. */
  lemma {:induction false} InverseRefsMeaning(log: seq<Event>, target: u64, source: u64, kind: byte)
    requires Sequential(log)
    ensures multiset(Lookup(Build(log).inverseRefs, target))[InverseRef(source, kind)]
         == if 1 <= source <= |log| then CountRefs(log[source - 1].refs, kind, target) else 0
  {
    hide AbsorbRefs, CountRefs;
    if log == [] {
    } else {
      var init, last := log[..|log| - 1], log[|log| - 1];
      InverseRefsMeaning(init, target, source, kind);
      AbsorbRefsCounts(Build(init).inverseRefs, last.id, last.refs, target, source, kind);
    }
  }

  lemma {:induction false} AbsorbRefsCounts(m: map<u64, seq<InverseRef>>, id: u64, refs: seq<Ref>, target: u64,
                                            source: u64, kind: byte)
    ensures multiset(Lookup(AbsorbRefs(m, id, refs), target))[InverseRef(source, kind)]
         == multiset(Lookup(m, target))[InverseRef(source, kind)]
            + if source == id then CountRefs(refs, kind, target) else 0
  {
    if refs == [] {
    } else {
      AbsorbRefsCounts(m, id, refs[..|refs| - 1], target, source, kind);
    }
  }

  // ── Live graph against reloaded graph ───────────────────────────────────────

  function DurableLog(log: seq<Event>): seq<Event> {
    seq(|log|, i requires 0 <= i < |log| => Durable(log[i]))
  }

  /** The graph kept while running equals the graph rebuilt from disk exactly when every event's
      times survive the format. */
  lemma LiveEqualsReloaded(log: seq<Event>)
    requires Sequential(log)
    ensures Build(log) == Build(DurableLog(log)) <==> forall i | 0 <= i < |log| :: FaithfulTimes(log[i])
  {
    hide Build, Durable, FaithfulTimes;
    forall i | 0 <= i < |log| ensures Durable(log[i]) == log[i] <==> FaithfulTimes(log[i]) {
      TimesSurvive(log[i]);
    }
    if forall i | 0 <= i < |log| :: FaithfulTimes(log[i]) {
      assert DurableLog(log) == log;
    } else {
      var i :| 0 <= i < |log| && !FaithfulTimes(log[i]);
      DurableKeepsIds(log);
      ByIdMeaning(log);
      ByIdMeaning(DurableLog(log));
      assert DurableLog(log)[i] == Durable(log[i]);
      assert Build(log).byId[log[i].id] != Build(DurableLog(log)).byId[log[i].id];
    }
  }

  lemma DurableKeepsIds(log: seq<Event>)
    ensures |DurableLog(log)| == |log|
    ensures forall i | 0 <= i < |log| :: DurableLog(log)[i].id == log[i].id
    ensures Sequential(log) ==> Sequential(DurableLog(log))
  {
  }

  lemma TimesSurvive(ev: Event)
    ensures Durable(ev) == ev <==> FaithfulTimes(ev)
  {
    assert Durable(ev) == ev.(createdAt := Durable(ev).createdAt, closedAt := Durable(ev).closedAt);
  }
}
