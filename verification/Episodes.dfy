/** Episodes: search hits grouped by stream, the groups ranked, and each stream's events sorted into
    buckets by the perspective they were recorded from. */
module Episodes {
  import opened Prelude
  import opened Format
  import opened EventGraph
  import opened Sorting
  import opened MemSearch

  const EPISODE_K_DEFAULT := 5
  const EPISODE_K_CAP := 20
  const EPISODE_OVERFETCH := 6

  // ── Grouping hits by stream ─────────────────────────────────────────────────

  datatype Agg = Agg(streamId: u64, score: u32, hitCount: nat, firstSeen: nat)

  predicate Resolves(h: Hit, byId: map<u64, Event>, stream: u64) {
    h.id in byId && byId[h.id].streamId == stream
  }

  /** Scores of the hits that fall into one stream, in hit order. */
  function StreamScores(hits: seq<Hit>, byId: map<u64, Event>, stream: u64): seq<u32> {
    if hits == [] then [] else
    var last := hits[|hits| - 1];
    StreamScores(hits[..|hits| - 1], byId, stream) + if Resolves(last, byId, stream) then [last.score] else []
  }

  /** Left-to-right float sum. */
  function Total(scores: seq<u32>, add: (u32, u32) -> u32): u32
    requires scores != []
  {
    if |scores| == 1 then scores[0] else add(Total(scores[..|scores| - 1], add), scores[|scores| - 1])
  }

  /** The sum starts with the first score and adds one after the other. */
  lemma {:induction false} TotalAdds(scores: seq<u32>, add: (u32, u32) -> u32) returns (sums: seq<u32>)
    requires scores != []
    ensures |sums| == |scores| && sums[0] == scores[0] && sums[|sums| - 1] == Total(scores, add)
    ensures forall i | 0 < i < |sums| :: sums[i] == add(sums[i - 1], scores[i])
  {
    var n := |scores| - 1;
    if n == 0 {
      sums := [scores[0]];
    } else {
      sums := TotalAdds(scores[..n], add);
      sums := sums + [Total(scores, add)];
    }
  }

  /** `ps` are the positions of the hits of a stream. */
  predicate HitsAt(hits: seq<Hit>, byId: map<u64, Event>, stream: u64, ps: seq<nat>) {
    && (forall i, j | 0 <= i < j < |ps| :: ps[i] < ps[j])
    && (forall i | 0 <= i < |ps| :: ps[i] < |hits|)
    && forall q | 0 <= q < |hits| :: q in ps <==> hits[q].id in byId && byId[hits[q].id].streamId == stream
  }

  /** The scores of a stream are those of its hits, in the order of the hits. */
  lemma {:induction false} ScoresMean(hits: seq<Hit>, byId: map<u64, Event>, stream: u64) returns (ps: seq<nat>)
    ensures HitsAt(hits, byId, stream, ps) && |ps| == |StreamScores(hits, byId, stream)|
    ensures forall i | 0 <= i < |ps| :: StreamScores(hits, byId, stream)[i] == hits[ps[i]].score
  {
    if hits == [] {
      ps := [];
    } else {
      var n := |hits| - 1;
      ps := ScoresMean(hits[..n], byId, stream);
      HitsAtNext(hits, byId, stream, ps);
      if Resolves(hits[n], byId, stream) {
        ps := ps + [n];
      }
    }
  }

  lemma HitsAtNext(hits: seq<Hit>, byId: map<u64, Event>, stream: u64, ps: seq<nat>)
    requires hits != [] && HitsAt(hits[..|hits| - 1], byId, stream, ps)
    ensures HitsAt(hits, byId, stream, ps + if Resolves(hits[|hits| - 1], byId, stream) then [|hits| - 1] else [])
  {
    var n := |hits| - 1;
    assert forall q | 0 <= q < n :: hits[..n][q] == hits[q];
    assert n !in ps;
  }

  function Found(hits: seq<Hit>, byId: map<u64, Event>): nat {
    if hits == [] then 0 else
    Found(hits[..|hits| - 1], byId) + if hits[|hits| - 1].id in byId then 1 else 0
  }

  function HitSum(aggs: seq<Agg>): nat {
    if aggs == [] then 0 else HitSum(aggs[..|aggs| - 1]) + aggs[|aggs| - 1].hitCount
  }

  predicate DistinctStreams(aggs: seq<Agg>) {
    forall i, j | 0 <= i < j < |aggs| :: aggs[i].streamId != aggs[j].streamId
  }

  /** `a` is the account of its stream's hits. */
  predicate Accounts(a: Agg, hits: seq<Hit>, byId: map<u64, Event>, add: (u32, u32) -> u32) {
    var scores := StreamScores(hits, byId, a.streamId);
    scores != [] && a.hitCount == |scores| && a.score == Total(scores, add)
  }

  /** The first hit of a stream is at position `p`. */
  predicate FirstAt(hits: seq<Hit>, byId: map<u64, Event>, stream: u64, p: nat) {
    && p < |hits| && Resolves(hits[p], byId, stream)
    && forall q | 0 <= q < p :: !Resolves(hits[q], byId, stream)
  }

  predicate Increasing(ps: seq<nat>) {
    forall i, j | 0 <= i < j < |ps| :: ps[i] < ps[j]
  }

  predicate HasAccount(aggs: seq<Agg>, stream: u64) {
    exists i | 0 <= i < |aggs| :: aggs[i].streamId == stream
  }

  /** Each account is right and knows its place. */
  predicate AllAccount(aggs: seq<Agg>, hits: seq<Hit>, byId: map<u64, Event>, add: (u32, u32) -> u32) {
    forall i | 0 <= i < |aggs| :: aggs[i].firstSeen == i && Accounts(aggs[i], hits, byId, add)
  }

  /** The accounts stand in the order in which their streams first appear among the hits. */
  predicate InFirstOrder(aggs: seq<Agg>, firsts: seq<nat>, hits: seq<Hit>, byId: map<u64, Event>) {
    && |firsts| == |aggs| && Increasing(firsts)
    && forall i | 0 <= i < |aggs| :: FirstAt(hits, byId, aggs[i].streamId, firsts[i])
  }

  /** Every stream that was hit has exactly one account and every hit is counted in one. */
  ghost predicate Grouped(aggs: seq<Agg>, firsts: seq<nat>, hits: seq<Hit>, byId: map<u64, Event>,
                          add: (u32, u32) -> u32)
  {
    && DistinctStreams(aggs)
    && AllAccount(aggs, hits, byId, add)
    && (forall stream: u64 | StreamScores(hits, byId, stream) != [] :: HasAccount(aggs, stream))
    && HitSum(aggs) == Found(hits, byId)
    && InFirstOrder(aggs, firsts, hits, byId)
  }

  /** One account for every stream with a hit, in the order the streams were first hit. */
  ghost predicate Groups(aggs: seq<Agg>, hits: seq<Hit>, byId: map<u64, Event>, add: (u32, u32) -> u32) {
    exists firsts :: Grouped(aggs, firsts, hits, byId, add)
  }

  predicate Indexes(index: map<u64, nat>, aggs: seq<Agg>) {
    && (forall stream | stream in index :: index[stream] < |aggs| && aggs[index[stream]].streamId == stream)
    && (forall i | 0 <= i < |aggs| :: aggs[i].streamId in index && index[aggs[i].streamId] == i)
  }

  lemma {:induction false} HitSumUpdate(aggs: seq<Agg>, i: nat, a: Agg)
    requires i < |aggs|
    ensures HitSum(aggs[i := a]) == HitSum(aggs) - aggs[i].hitCount + a.hitCount
  {
    var n := |aggs| - 1;
    var changed := aggs[i := a];
    if i < n {
      HitSumUpdate(aggs[..n], i, a);
      assert changed[..n] == aggs[..n][i := a];
    } else {
      assert changed[..n] == aggs[..n];
    }
  }

  lemma ScoresStep(hits: seq<Hit>, h: Hit, byId: map<u64, Event>, stream: u64)
    ensures StreamScores(hits + [h], byId, stream)
         == StreamScores(hits, byId, stream) + if Resolves(h, byId, stream) then [h.score] else []
  {
    assert (hits + [h])[..|hits|] == hits;
  }

  lemma FoundStep(hits: seq<Hit>, h: Hit, byId: map<u64, Event>)
    ensures Found(hits + [h], byId) == Found(hits, byId) + if h.id in byId then 1 else 0
  {
    assert (hits + [h])[..|hits|] == hits;
  }

  lemma TotalStep(scores: seq<u32>, x: u32, add: (u32, u32) -> u32)
    ensures Total(scores + [x], add) == if scores == [] then x else add(Total(scores, add), x)
  {
    assert (scores + [x])[..|scores|] == scores;
  }

  function Credit(a: Agg, score: u32, add: (u32, u32) -> u32): Agg {
    a.(score := add(a.score, score), hitCount := a.hitCount + 1)
  }

  lemma AccountStep(a: Agg, hits: seq<Hit>, h: Hit, byId: map<u64, Event>, add: (u32, u32) -> u32)
    requires Accounts(a, hits, byId, add)
    ensures Accounts(if Resolves(h, byId, a.streamId) then Credit(a, h.score, add) else a, hits + [h], byId, add)
  {
    ScoresStep(hits, h, byId, a.streamId);
    TotalStep(StreamScores(hits, byId, a.streamId), h.score, add);
    hide StreamScores, Total;
    assert StreamScores(hits, byId, a.streamId) + [] == StreamScores(hits, byId, a.streamId);
  }

  lemma FirstOrderStays(aggs: seq<Agg>, after: seq<Agg>, firsts: seq<nat>, hits: seq<Hit>, h: Hit,
                        byId: map<u64, Event>)
    requires InFirstOrder(aggs, firsts, hits, byId)
    requires |after| == |aggs| && forall i | 0 <= i < |aggs| :: after[i].streamId == aggs[i].streamId
    ensures InFirstOrder(after, firsts, hits + [h], byId)
  {
    forall i | 0 <= i < |aggs| ensures FirstAt(hits + [h], byId, after[i].streamId, firsts[i]) {
      assert FirstAt(hits, byId, aggs[i].streamId, firsts[i]);
    }
  }

  /** A hit outside the map changes no account. */
  lemma SkipHit(aggs: seq<Agg>, firsts: seq<nat>, hits: seq<Hit>, h: Hit, byId: map<u64, Event>, add: (u32, u32) -> u32)
    requires Grouped(aggs, firsts, hits, byId, add) && h.id !in byId
    ensures Grouped(aggs, firsts, hits + [h], byId, add)
  {
    hide StreamScores, HitSum, Found, Accounts, InFirstOrder, HasAccount;
    FoundStep(hits, h, byId);
    FirstOrderStays(aggs, aggs, firsts, hits, h, byId);
    forall i | 0 <= i < |aggs| { AccountStep(aggs[i], hits, h, byId, add); }
    forall stream: u64 { ScoresStep(hits, h, byId, stream); }
  }

  /** A hit of a stream that has an account is credited to that account. */
  lemma KnownHit(aggs: seq<Agg>, firsts: seq<nat>, hits: seq<Hit>, h: Hit, byId: map<u64, Event>,
                 add: (u32, u32) -> u32, i: nat)
    requires Grouped(aggs, firsts, hits, byId, add) && i < |aggs| && Resolves(h, byId, aggs[i].streamId)
    ensures Grouped(aggs[i := Credit(aggs[i], h.score, add)], firsts, hits + [h], byId, add)
  {
    hide StreamScores, HitSum, Found, Accounts, InFirstOrder;
    var after := aggs[i := Credit(aggs[i], h.score, add)];
    FoundStep(hits, h, byId);
    HitSumUpdate(aggs, i, Credit(aggs[i], h.score, add));
    FirstOrderStays(aggs, after, firsts, hits, h, byId);
    forall j | 0 <= j < |aggs| ensures after[j].firstSeen == j && Accounts(after[j], hits + [h], byId, add) {
      AccountStep(aggs[j], hits, h, byId, add);
    }
    forall stream: u64 | StreamScores(hits + [h], byId, stream) != [] ensures HasAccount(after, stream) {
      ScoresStep(hits, h, byId, stream);
      if Resolves(h, byId, stream) {
        assert after[i].streamId == stream;
      } else {
        var j :| 0 <= j < |aggs| && aggs[j].streamId == stream;
        assert after[j].streamId == stream;
      }
    }
  }

  /** The first hit of a stream opens its account at the end. */
  lemma NewHit(aggs: seq<Agg>, firsts: seq<nat>, hits: seq<Hit>, h: Hit, byId: map<u64, Event>, add: (u32, u32) -> u32)
    requires Grouped(aggs, firsts, hits, byId, add) && h.id in byId
    requires forall i | 0 <= i < |aggs| :: aggs[i].streamId != byId[h.id].streamId
    ensures Grouped(aggs + [Agg(byId[h.id].streamId, h.score, 1, |aggs|)], firsts + [|hits|], hits + [h], byId, add)
  {
    hide StreamScores, HitSum, Found, Accounts, InFirstOrder;
    var a := Agg(byId[h.id].streamId, h.score, 1, |aggs|);
    var after := aggs + [a];
    FoundStep(hits, h, byId);
    HitSumSnoc(aggs, a);
    assert StreamScores(hits, byId, a.streamId) == [];
    FirstAccount(a, hits, h, byId, add);
    forall j | 0 <= j < |after| ensures after[j].firstSeen == j && Accounts(after[j], hits + [h], byId, add) {
      if j < |aggs| { AccountStep(aggs[j], hits, h, byId, add); }
    }
    forall stream: u64 | StreamScores(hits + [h], byId, stream) != [] ensures HasAccount(after, stream) {
      ScoresStep(hits, h, byId, stream);
      if Resolves(h, byId, stream) {
        assert after[|aggs|].streamId == stream;
      } else {
        var j :| 0 <= j < |aggs| && aggs[j].streamId == stream;
        assert after[j].streamId == stream;
      }
    }
    FirstOrderNew(aggs, a, firsts, hits, h, byId);
  }

  lemma HitSumSnoc(aggs: seq<Agg>, a: Agg)
    ensures HitSum(aggs + [a]) == HitSum(aggs) + a.hitCount
  {
    assert (aggs + [a])[..|aggs|] == aggs;
  }

  lemma FirstAccount(a: Agg, hits: seq<Hit>, h: Hit, byId: map<u64, Event>, add: (u32, u32) -> u32)
    requires Resolves(h, byId, a.streamId) && StreamScores(hits, byId, a.streamId) == []
    requires a.score == h.score && a.hitCount == 1
    ensures Accounts(a, hits + [h], byId, add)
  {
    ScoresStep(hits, h, byId, a.streamId);
    TotalStep([], h.score, add);
    hide StreamScores, Total;
    assert [] + [h.score] == [h.score];
  }

  lemma FirstOrderNew(aggs: seq<Agg>, a: Agg, firsts: seq<nat>, hits: seq<Hit>, h: Hit, byId: map<u64, Event>)
    requires InFirstOrder(aggs, firsts, hits, byId)
    requires Resolves(h, byId, a.streamId) && StreamScores(hits, byId, a.streamId) == []
    ensures InFirstOrder(aggs + [a], firsts + [|hits|], hits + [h], byId)
  {
    FirstOrderStays(aggs, aggs, firsts, hits, h, byId);
    NoneBefore(hits, byId, a.streamId);
    hide StreamScores;
    assert FirstAt(hits + [h], byId, a.streamId, |hits|);
    assert forall i | 0 <= i < |aggs| :: FirstAt(hits, byId, aggs[i].streamId, firsts[i]);
  }

  lemma {:induction false} NoneBefore(hits: seq<Hit>, byId: map<u64, Event>, stream: u64)
    requires StreamScores(hits, byId, stream) == []
    ensures forall q | 0 <= q < |hits| :: !Resolves(hits[q], byId, stream)
  {
    if hits == [] {
    } else {
      NoneBefore(hits[..|hits| - 1], byId, stream);
    }
  }

  /** Groups the hits of a search by the stream they belong to. */
  method Aggregate(byId: map<u64, Event>, hits: seq<Hit>, add: (u32, u32) -> u32) returns (aggs: seq<Agg>)
    ensures Groups(aggs, hits, byId, add)
  {
    hide StreamScores, HitSum, Found, Accounts, InFirstOrder, Grouped;
    aggs := [];
    ghost var firsts: seq<nat> := [];
    var index: map<u64, nat> := map[];
    NoHits(byId, add);
    for n := 0 to |hits|
      invariant Grouped(aggs, firsts, hits[..n], byId, add)
      invariant Indexes(index, aggs)
    {
      var Hit(id, score) := hits[n];
      assert hits[..n + 1] == hits[..n] + [hits[n]];
      if id !in byId {
        SkipHit(aggs, firsts, hits[..n], hits[n], byId, add);
        continue;
      }
      var stream := byId[id].streamId;
      if stream in index {
        var i := index[stream];
        KnownHit(aggs, firsts, hits[..n], hits[n], byId, add, i);
        aggs := aggs[i := aggs[i].(score := add(aggs[i].score, score), hitCount := aggs[i].hitCount + 1)];
      } else {
        NewHit(aggs, firsts, hits[..n], hits[n], byId, add);
        index := index[stream := |aggs|];
        aggs := aggs + [Agg(stream, score, 1, |aggs|)];
        firsts := firsts + [n];
      }
    }
    assert hits[..|hits|] == hits;
  }

  lemma NoHits(byId: map<u64, Event>, add: (u32, u32) -> u32)
    ensures Grouped([], [], [], byId, add)
  {
  }

  // ── Buckets ─────────────────────────────────────────────────────────────────

  /** The perspective an event's trace byte stands for: 1 space, 2 time, 3 action, 0 anything else. */
  function Perspective(trace: byte): nat {
    if 1 <= trace <= 3 then trace else 0
  }

  /** The events of one perspective, in order. */
  function Traced(events: seq<Event>, p: nat): seq<Event> {
    if events == [] then [] else
    var last := events[|events| - 1];
    Traced(events[..|events| - 1], p) + if Perspective(last.trace) == p then [last] else []
  }

  /** The events of one stream, in log order. */
  function StreamLog(log: seq<Event>, stream: u64): seq<Event> {
    if log == [] then [] else
    var last := log[|log| - 1];
    StreamLog(log[..|log| - 1], stream) + if last.streamId == stream then [last] else []
  }

  lemma {:induction false} StreamLogAt(log: seq<Event>, stream: u64)
    requires Sequential(log)
    ensures var ids := IdsOf(log, stream);
            && |StreamLog(log, stream)| == |ids|
            && forall i | 0 <= i < |ids| :: 1 <= ids[i] <= |log| && StreamLog(log, stream)[i] == log[ids[i] - 1]
  {
    if log == [] {
    } else {
      StreamLogAt(log[..|log| - 1], stream);
    }
  }

  /** Every event of a stream is in exactly the bucket of its perspective. */
  lemma {:induction false} TracedMembers(events: seq<Event>, p: nat)
    ensures forall ev :: ev in Traced(events, p) <==> ev in events && Perspective(ev.trace) == p
  {
    if events == [] {
    } else {
      TracedMembers(events[..|events| - 1], p);
      assert events == events[..|events| - 1] + [events[|events| - 1]];
    }
  }

  /** The four buckets together hold each event as often as the stream does. */
  lemma {:induction false} BucketsPartition(events: seq<Event>)
    ensures multiset(events)
         == multiset(Traced(events, 1)) + multiset(Traced(events, 2)) + multiset(Traced(events, 3)) + multiset(Traced(events, 0))
  {
    hide Traced;
    var n := |events| - 1;
    TracedStep(events, 0); TracedStep(events, 1); TracedStep(events, 2); TracedStep(events, 3);
    if events == [] {
    } else {
      BucketsPartition(events[..n]);
      assert events == events[..n] + [events[n]];
    }
  }

  lemma TracedStep(events: seq<Event>, p: nat)
    ensures events == [] ==> Traced(events, p) == []
    ensures events != [] ==>
              var n := |events| - 1;
              multiset(Traced(events, p))
              == multiset(Traced(events[..n], p)) + if Perspective(events[n].trace) == p then multiset{events[n]} else multiset{}
  {
  }

  predicate AscendingIds(events: seq<Event>) {
    forall i, j | 0 <= i < j < |events| :: events[i].id < events[j].id
  }

  /** Buckets keep the id order. */
  lemma {:induction false} TracedAscends(events: seq<Event>, p: nat)
    requires AscendingIds(events)
    ensures AscendingIds(Traced(events, p))
  {
    if events == [] {
    } else {
      var init, last := events[..|events| - 1], events[|events| - 1];
      TracedAscends(init, p);
      TracedMembers(init, p);
      hide Traced;
      forall ev | ev in Traced(init, p) ensures ev.id < last.id {
        assert ev in init;
        var i :| 0 <= i < |init| && init[i] == ev;
        assert events[i] == ev;
      }
      LaterSnoc(Traced(init, p), last);
    }
  }

  lemma LaterSnoc(events: seq<Event>, last: Event)
    requires AscendingIds(events) && forall ev | ev in events :: ev.id < last.id
    ensures AscendingIds(events + [last])
  {
    assert forall i | 0 <= i < |events| :: events[i] in events;
  }

  datatype Buckets = Buckets(space: seq<Event>, time: seq<Event>, action: seq<Event>, untracked: seq<Event>)

  function BucketsOf(events: seq<Event>): Buckets {
    Buckets(Traced(events, 1), Traced(events, 2), Traced(events, 3), Traced(events, 0))
  }

  predicate Earlier(a: u64, b: u64) {
    a <= b
  }

  /** Sorts a stream's events into buckets, ids ascending (`build_episode`, and the body of a lookup). */
  method FillBuckets(g: Graph, ghost log: seq<Event>, stream: u64) returns (b: Buckets)
    requires g == Build(log) && Sequential(log)
    ensures b == BucketsOf(StreamLog(log, stream))
  {
    hide Build, IdsOf, StreamLog, Sort, Traced;
    ByStreamMeaning(log, stream);
    ByIdMeaning(log);
    IdsOfMeaning(log, stream);
    StreamLogAt(log, stream);
    SortOfSorted(IdsOf(log, stream), Earlier);
    var ids := Sort(Lookup(g.byStream, stream), Earlier);
    ghost var events := StreamLog(log, stream);
    b := Buckets([], [], [], []);
    NoEvents();
    for i := 0 to |ids|
      invariant b == BucketsOf(events[..i])
    {
      var id := ids[i];
      BucketsStep(events, i);
      if id in g.byId {
        var ev := g.byId[id];
        match ev.trace {
          case 1 => b := b.(space := b.space + [ev]);
          case 2 => b := b.(time := b.time + [ev]);
          case 3 => b := b.(action := b.action + [ev]);
          case _ => b := b.(untracked := b.untracked + [ev]);
        }
      }
    }
    assert events[..|events|] == events;
  }

  /** Trace 1 is space, 2 time, 3 action; every other event is untracked. */
  lemma BucketsMean(events: seq<Event>, ev: Event)
    ensures var b := BucketsOf(events);
            && (ev in b.space <==> ev in events && ev.trace == 1)
            && (ev in b.time <==> ev in events && ev.trace == 2)
            && (ev in b.action <==> ev in events && ev.trace == 3)
            && (ev in b.untracked <==> ev in events && ev.trace !in {1, 2, 3})
  {
    hide Traced;
    TracedMembers(events, 0);
    TracedMembers(events, 1);
    TracedMembers(events, 2);
    TracedMembers(events, 3);
  }

  lemma NoEvents()
    ensures BucketsOf([]) == Buckets([], [], [], [])
  {
  }

  lemma BucketsStep(events: seq<Event>, i: nat)
    requires i < |events|
    ensures var b, ev := BucketsOf(events[..i]), events[i];
            BucketsOf(events[..i + 1]) ==
              match ev.trace
              case 1 => b.(space := b.space + [ev])
              case 2 => b.(time := b.time + [ev])
              case 3 => b.(action := b.action + [ev])
              case _ => b.(untracked := b.untracked + [ev])
  {
    assert events[..i + 1][..i] == events[..i];
  }

  // ── Lookup ──────────────────────────────────────────────────────────────────

  datatype Episode = Episode(
    streamId: u64, name: string, openedAt: Time, closedAt: Option<Time>,
    score: u32, hitCount: nat, buckets: Buckets)

  /** Higher score first; on a tie the stream that was seen first. */
  predicate Ahead(a: Agg, b: Agg) {
    TotalKey(a.score) > TotalKey(b.score) || (TotalKey(a.score) == TotalKey(b.score) && a.firstSeen <= b.firstSeen)
  }

  lemma AheadIsTotal()
    ensures TotalPreorder(Ahead)
  {
  }

  function Ranked(aggs: seq<Agg>, k: nat): seq<Agg> {
    var sorted := Sort(aggs, Ahead);
    if |sorted| <= k then sorted else sorted[..k]
  }

  predicate IsEpisode(ep: Episode, a: Agg, log: seq<Event>) {
    && ep.streamId == a.streamId && ep.name == "" && ep.score == a.score && ep.hitCount == a.hitCount
    && ep.buckets == BucketsOf(StreamLog(log, a.streamId))
    && IsOpening(log, a.streamId, ep.openedAt) && ep.closedAt == None
  }

  /** Account `i` ranks before account `j`: its score is higher, or as high and its stream was hit first. */
  predicate Outranks(aggs: seq<Agg>, i: nat, j: nat)
    requires i < |aggs| && j < |aggs|
  {
    ScoreBelow(aggs[j].score, aggs[i].score) || (!ScoreBelow(aggs[i].score, aggs[j].score) && i < j)
  }

  /** `picks` are the positions of the best accounts: as many as asked for or as there are, in rank order, and
      every other account ranks behind every one of them. */
  predicate Best(picks: seq<nat>, aggs: seq<Agg>, top: nat) {
    && |picks| == (if top < |aggs| then top else |aggs|)
    && (forall i | 0 <= i < |picks| :: picks[i] < |aggs|)
    && (forall i, j | 0 <= i < j < |picks| :: Outranks(aggs, picks[i], picks[j]))
    && (forall i, k | 0 <= i < |picks| && 0 <= k < |aggs| && k !in picks :: Outranks(aggs, picks[i], k))
  }

  /** `episodes` are the best accounts of `aggs`, filled in from the log; the accounts group the hits and
      together count every one of them. */
  ghost predicate RecallsAs(episodes: seq<Episode>, picks: seq<nat>, aggs: seq<Agg>, hits: seq<Hit>, top: nat,
                            log: seq<Event>, byId: map<u64, Event>, add: (u32, u32) -> u32)
  {
    && Groups(aggs, hits, byId, add) && HitSum(aggs) == |hits|
    && Best(picks, aggs, top)
    && |episodes| == |picks|
    && forall i | 0 <= i < |episodes| :: IsEpisode(episodes[i], aggs[picks[i]], log)
  }

  ghost predicate Recalls(episodes: seq<Episode>, hits: seq<Hit>, top: nat, log: seq<Event>,
                          byId: map<u64, Event>, add: (u32, u32) -> u32)
  {
    exists picks, aggs :: RecallsAs(episodes, picks, aggs, hits, top, log, byId, add)
  }

  /** Ranking and truncating picks the best accounts. */
  lemma RankedAreBest(aggs: seq<Agg>, top: nat) returns (picks: seq<nat>)
    requires DistinctStreams(aggs) && forall i | 0 <= i < |aggs| :: aggs[i].firstSeen == i
    ensures Best(picks, aggs, top) && |picks| == |Ranked(aggs, top)|
    ensures forall i | 0 <= i < |picks| :: aggs[picks[i]] == Ranked(aggs, top)[i]
  {
    hide Sort, Outranks, Ahead;
    SortedPositions(aggs);
    var sorted, ranked := Sort(aggs, Ahead), Ranked(aggs, top);
    picks := seq(|ranked|, i requires 0 <= i < |ranked| => ranked[i].firstSeen);
    assert forall n | 0 <= n < |ranked| :: sorted[n] == ranked[n] && picks[n] == sorted[n].firstSeen && picks[n] in picks;
    forall i, j | 0 <= i < j < |picks| ensures Outranks(aggs, picks[i], picks[j]) {
      AheadOutranks(aggs, picks[i], picks[j]);
    }
    forall i, k | 0 <= i < |picks| && 0 <= k < |aggs| && k !in picks ensures Outranks(aggs, picks[i], k) {
      var q :| 0 <= q < |sorted| && sorted[q] == aggs[k];
      AheadOutranks(aggs, picks[i], k);
    }
  }

  /** Sorting orders the positions of the accounts: each once, none missing. */
  lemma SortedPositions(aggs: seq<Agg>)
    requires DistinctStreams(aggs) && forall i | 0 <= i < |aggs| :: aggs[i].firstSeen == i
    ensures var sorted := Sort(aggs, Ahead);
            && |sorted| == |aggs| && Sorted(sorted, Ahead)
            && (forall i | 0 <= i < |sorted| :: sorted[i].firstSeen < |aggs| && aggs[sorted[i].firstSeen] == sorted[i])
            && (forall i, j | 0 <= i < j < |sorted| :: sorted[i].firstSeen != sorted[j].firstSeen)
            && (forall k | 0 <= k < |aggs| :: aggs[k] in sorted)
  {
    hide Sort, Ahead;
    AheadIsTotal();
    SortSorts(aggs, Ahead);
    SortDistinct(aggs, Ahead, StreamOf);
    SortMembers(aggs, Ahead);
    SortKeeps(aggs, Ahead);
    var sorted := Sort(aggs, Ahead);
    assert forall i, j | 0 <= i < j < |sorted| :: StreamOf(sorted[i]) != StreamOf(sorted[j]);
    forall i | 0 <= i < |sorted| ensures sorted[i].firstSeen < |aggs| && aggs[sorted[i].firstSeen] == sorted[i] {
      assert sorted[i] in sorted && sorted[i] in aggs;
    }
    assert forall k | 0 <= k < |aggs| :: aggs[k] in aggs;
  }

  lemma AheadOutranks(aggs: seq<Agg>, i: nat, j: nat)
    requires i < |aggs| && j < |aggs| && i != j && aggs[i].firstSeen == i && aggs[j].firstSeen == j
    requires Ahead(aggs[i], aggs[j])
    ensures Outranks(aggs, i, j)
  {
    hide TotalKey, ScoreBelow;
    ScoreOrder(aggs[i].score, aggs[j].score);
    ScoreOrder(aggs[j].score, aggs[i].score);
  }

  /** The episode of one account: its stream's record and events. */
  method FillEpisode(g: Graph, ghost log: seq<Event>, a: Agg) returns (ep: Episode)
    requires g == Build(log) && Sequential(log) && IdsOf(log, a.streamId) != []
    ensures IsEpisode(ep, a, log)
  {
    hide Build, StreamLog, IdsOf, IsOpening;
    StreamsMeaning(log, a.streamId);
    var st := g.streams[a.streamId];
    var b := FillBuckets(g, log, a.streamId);
    ep := Episode(a.streamId, st.name, st.openedAt, st.closedAt, a.score, a.hitCount, b);
  }

  /** Recalls the episodes a query hits: search wide, group by stream, rank, and fill in each stream. */
  method EpisodeLookup(g: Graph, ghost log: seq<Event>, values: seq<Event>, query: seq<u32>, k: nat,
                       cosine: (seq<u32>, seq<u32>) -> u32, add: (u32, u32) -> u32)
    returns (episodes: seq<Episode>)
    requires g == Build(log) && Sequential(log) && Lists(values, g.byId)
    ensures var top := if k == 0 then 5 else if k < 20 then k else 20;
            var fetch := if top * 6 < 256 then top * 6 else 256;
            Recalls(episodes, Search(values, query, fetch, None, cosine), top, log, g.byId, add)
  {
    hide Build, Search, Ranked, Grouped, HitSum, IsEpisode, Best, DistinctStreams, Accounts, Lists, Sequential;
    var top := ClampK(k, EPISODE_K_DEFAULT, EPISODE_K_CAP);
    var fetch := top * EPISODE_OVERFETCH;
    if fetch > SEARCH_K_CAP {
      fetch := SEARCH_K_CAP;
    }
    var hits := Search(values, query, fetch, None, cosine);
    var aggs := Aggregate(g.byId, hits, add);
    ghost var firsts :| Grouped(aggs, firsts, hits, g.byId, add);
    EveryHitFound(values, g.byId, query, fetch, cosine, aggs, firsts, add);
    RankedStreams(aggs, top, firsts, hits, g.byId, add);
    AccountsStand(aggs, firsts, hits, g.byId, add);
    ghost var picks := RankedAreBest(aggs, top);
    var ranked := Ranked(aggs, top);
    episodes := [];
    for i := 0 to |ranked|
      invariant |episodes| == i && forall j | 0 <= j < i :: IsEpisode(episodes[j], ranked[j], log)
    {
      AccountedStream(log, g.byId, hits, ranked[i], add);
      var ep := FillEpisode(g, log, ranked[i]);
      episodes := episodes + [ep];
    }
    assert RecallsAs(episodes, picks, aggs, hits, top, log, g.byId, add);
  }

  lemma EveryHitFound(values: seq<Event>, byId: map<u64, Event>, query: seq<u32>, k: nat,
                      cosine: (seq<u32>, seq<u32>) -> u32,
                      aggs: seq<Agg>, firsts: seq<nat>, add: (u32, u32) -> u32)
    requires Lists(values, byId)
    requires Grouped(aggs, firsts, Search(values, query, k, None, cosine), byId, add)
    ensures HitSum(aggs) == |Search(values, query, k, None, cosine)|
  {
    hide HitSum, Found, Search, AllAccount, InFirstOrder;
    SearchIsTopK(values, byId, query, k, None, cosine);
    AllFound(Search(values, query, k, None, cosine), byId);
  }

  lemma {:induction false} AllFound(hits: seq<Hit>, byId: map<u64, Event>)
    requires forall i | 0 <= i < |hits| :: hits[i].id in byId
    ensures Found(hits, byId) == |hits|
  {
    if hits == [] {
    } else {
      AllFound(hits[..|hits| - 1], byId);
    }
  }

  lemma RankedStreams(aggs: seq<Agg>, k: nat, firsts: seq<nat>, hits: seq<Hit>, byId: map<u64, Event>,
                      add: (u32, u32) -> u32)
    requires Grouped(aggs, firsts, hits, byId, add)
    ensures forall i | 0 <= i < |Ranked(aggs, k)| :: Accounts(Ranked(aggs, k)[i], hits, byId, add)
  {
    hide Sort, Accounts, HitSum, Found, InFirstOrder, Ahead;
    SortMembers(aggs, Ahead);
    var sorted := Sort(aggs, Ahead);
    forall i | 0 <= i < |sorted| ensures Accounts(sorted[i], hits, byId, add) {
      assert sorted[i] in sorted && sorted[i] in aggs;
    }
  }

  lemma AccountsStand(aggs: seq<Agg>, firsts: seq<nat>, hits: seq<Hit>, byId: map<u64, Event>, add: (u32, u32) -> u32)
    requires Grouped(aggs, firsts, hits, byId, add)
    ensures DistinctStreams(aggs) && forall i | 0 <= i < |aggs| :: aggs[i].firstSeen == i
  {
    hide Accounts, HitSum, Found, InFirstOrder;
  }

  function StreamOf(a: Agg): u64 {
    a.streamId
  }

  /** A stream with an account has events, so it has a stream record. */
  lemma AccountedStream(log: seq<Event>, byId: map<u64, Event>, hits: seq<Hit>, a: Agg, add: (u32, u32) -> u32)
    requires Sequential(log) && byId == Build(log).byId && Accounts(a, hits, byId, add)
    ensures IdsOf(log, a.streamId) != []
  {
    hide Build, Total, IdsOf;
    ByIdMeaning(log);
    IdsOfMeaning(log, a.streamId);
    var h := SomeHit(hits, byId, a.streamId);
    assert h.id in IdsOf(log, a.streamId);
  }

  lemma {:induction false} SomeHit(hits: seq<Hit>, byId: map<u64, Event>, stream: u64) returns (h: Hit)
    requires StreamScores(hits, byId, stream) != []
    ensures Resolves(h, byId, stream)
  {
    h := hits[|hits| - 1];
    if !Resolves(h, byId, stream) {
      h := SomeHit(hits[..|hits| - 1], byId, stream);
    }
  }
}
