/** Exact nearest-event search. Scores are 32-bit floats kept as bit patterns, ordered by `total_cmp`;
    the cosine is a parameter. */
module MemSearch {
  import opened Prelude
  import opened Format
  import opened Sorting

  const SEARCH_K_DEFAULT := 10
  const SEARCH_K_CAP := 256

  /** 0 asks for the default, anything above the cap for the cap. */
  function ClampK(k: nat, def: nat, cap: nat): nat {
    if k == 0 then def else if k < cap then k else cap
  }

  datatype Hit = Hit(id: u64, score: u32)

  /** The integer `total_cmp` compares: negative floats count downwards. */
  function TotalKey(bits: u32): int {
    if bits < 0x8000_0000 then bits else 0x7FFF_FFFF - bits
  }

  /** The order of `total_cmp`: a float with the sign bit is below one without; without it the patterns count
      upwards, with it downwards. */
  predicate ScoreBelow(a: u32, b: u32) {
    || (a >= 0x8000_0000 && b < 0x8000_0000)
    || (a < b < 0x8000_0000)
    || (a > b >= 0x8000_0000)
  }

  lemma ScoreOrder(a: u32, b: u32)
    ensures ScoreBelow(a, b) <==> TotalKey(a) < TotalKey(b)
  {
  }

  predicate Better(a: Hit, b: Hit) {
    TotalKey(a.score) >= TotalKey(b.score)
  }

  lemma BetterIsTotal()
    ensures TotalPreorder(Better)
  {
  }

  /** `x != 0.0`: both zeros have only the sign bit, and every NaN differs from zero. */
  predicate NonZero(bits: u32) {
    bits != 0 && bits != 0x8000_0000
  }

  predicate IsCandidate(ev: Event, stream: Option<u64>) {
    && (stream.Some? ==> ev.streamId == stream.value)
    && exists i | 0 <= i < |ev.vector| :: NonZero(ev.vector[i])
  }

  function Scored(events: seq<Event>, query: seq<u32>, stream: Option<u64>,
                  cosine: (seq<u32>, seq<u32>) -> u32): seq<Hit>
  {
    if events == [] then [] else
    (if IsCandidate(events[0], stream) then [Hit(events[0].id, cosine(query, events[0].vector))] else [])
    + Scored(events[1..], query, stream, cosine)
  }

  /** `values` are the events of the map in whatever order the map is iterated. */
  function Search(values: seq<Event>, query: seq<u32>, k: nat, stream: Option<u64>,
                  cosine: (seq<u32>, seq<u32>) -> u32): seq<Hit> {
    var scored := Sort(Scored(values, query, stream, cosine), Better);
    if |scored| <= k then scored else scored[..k]
  }

  /** `values` lists the map, each event once. */
  predicate Lists(values: seq<Event>, byId: map<u64, Event>) {
    && (forall i, j | 0 <= i < j < |values| :: values[i].id != values[j].id)
    && (forall i | 0 <= i < |values| :: values[i].id in byId && byId[values[i].id] == values[i])
    && (forall id | id in byId :: byId[id].id == id && byId[id] in values)
  }

  predicate IsHit(h: Hit, byId: map<u64, Event>, query: seq<u32>, stream: Option<u64>,
                  cosine: (seq<u32>, seq<u32>) -> u32)
  {
    h.id in byId && IsCandidate(byId[h.id], stream) && h.score == cosine(query, byId[h.id].vector)
  }

  predicate IsScored(h: Hit, values: seq<Event>, query: seq<u32>, stream: Option<u64>,
                     cosine: (seq<u32>, seq<u32>) -> u32)
  {
    exists ev | ev in values :: IsCandidate(ev, stream) && h == Hit(ev.id, cosine(query, ev.vector))
  }

  lemma {:induction false} ScoredMembers(values: seq<Event>, query: seq<u32>, stream: Option<u64>,
                                         cosine: (seq<u32>, seq<u32>) -> u32)
    ensures forall h :: h in Scored(values, query, stream, cosine) <==> IsScored(h, values, query, stream, cosine)
  {
    hide IsCandidate;
    if values == [] {
    } else {
      ScoredMembers(values[1..], query, stream, cosine);
      assert values == [values[0]] + values[1..];
      forall h ensures IsScored(h, values, query, stream, cosine) <==>
        IsScored(h, values[1..], query, stream, cosine)
        || (IsCandidate(values[0], stream) && h == Hit(values[0].id, cosine(query, values[0].vector)))
      {
      }
    }
  }

  predicate DistinctIds(hits: seq<Hit>) {
    forall i, j | 0 <= i < j < |hits| :: hits[i].id != hits[j].id
  }

  lemma {:induction false} ScoredDistinct(values: seq<Event>, query: seq<u32>, stream: Option<u64>,
                                          cosine: (seq<u32>, seq<u32>) -> u32)
    requires forall i, j | 0 <= i < j < |values| :: values[i].id != values[j].id
    ensures DistinctIds(Scored(values, query, stream, cosine))
  {
    hide IsCandidate;
    if values == [] {
    } else {
      var rest := Scored(values[1..], query, stream, cosine);
      ScoredDistinct(values[1..], query, stream, cosine);
      ScoredMembers(values[1..], query, stream, cosine);
      forall i | 0 <= i < |rest| ensures rest[i].id != values[0].id {
        assert rest[i] in rest;
        var ev :| ev in values[1..] && rest[i] == Hit(ev.id, cosine(query, ev.vector));
      }
    }
  }

  /** How many stored events a query can return. */
  ghost function Candidates(byId: map<u64, Event>, stream: Option<u64>): set<u64> {
    set id | id in byId && IsCandidate(byId[id], stream)
  }

  ghost function IdSet(hits: seq<Hit>): set<u64> {
    set h | h in hits :: h.id
  }

  /** Exact top-k, whatever the iteration order of the map: `min(k, candidates)` distinct hits, best
      first, each with its own score, and nothing left out that scores strictly better. */
  lemma SearchIsTopK(values: seq<Event>, byId: map<u64, Event>, query: seq<u32>, k: nat, stream: Option<u64>,
                     cosine: (seq<u32>, seq<u32>) -> u32)
    requires Lists(values, byId)
    ensures var r, c := Search(values, query, k, stream, cosine), Candidates(byId, stream);
            && |r| == (if k < |c| then k else |c|)
            && (forall i | 0 <= i < |r| :: IsHit(r[i], byId, query, stream, cosine))
            && DistinctIds(r) && Sorted(r, Better)
            && (forall id, i | id in c && id !in IdSet(r) && 0 <= i < |r| ::
                  Better(r[i], Hit(id, cosine(query, byId[id].vector))))
  {
    hide Better, IsCandidate, Sort, Scored, IsScored, IsHit, IdSet;
    var all := Sort(Scored(values, query, stream, cosine), Better);
    RankedAll(values, byId, query, stream, cosine);
    CountDistinct(all);
    var r := Search(values, query, k, stream, cosine);
    forall id, i | id in Candidates(byId, stream) && id !in IdSet(r) && 0 <= i < |r|
      ensures Better(r[i], Hit(id, cosine(query, byId[id].vector)))
    {
      LeftOutIsNoBetter(all, r, Hit(id, cosine(query, byId[id].vector)), i);
    }
  }

  /** What truncation leaves out comes after everything it keeps. */
  lemma LeftOutIsNoBetter(all: seq<Hit>, r: seq<Hit>, h: Hit, i: nat)
    requires Sorted(all, Better) && r <= all && h in all && h.id !in IdSet(r) && i < |r|
    ensures Better(r[i], h)
  {
    hide Better;
    assert forall x | x in r :: x.id in IdSet(r);
    var j :| 0 <= j < |all| && all[j] == h;
    assert forall n | 0 <= n < |r| :: all[n] == r[n] && r[n] in r;
  }

  /** Before truncation: every candidate once, best first. */
  lemma RankedAll(values: seq<Event>, byId: map<u64, Event>, query: seq<u32>, stream: Option<u64>,
                  cosine: (seq<u32>, seq<u32>) -> u32)
    requires Lists(values, byId)
    ensures var all := Sort(Scored(values, query, stream, cosine), Better);
            && DistinctIds(all) && Sorted(all, Better) && IdSet(all) == Candidates(byId, stream)
            && (forall i | 0 <= i < |all| :: IsHit(all[i], byId, query, stream, cosine))
            && (forall id | id in Candidates(byId, stream) :: Hit(id, cosine(query, byId[id].vector)) in all)
  {
    hide IsCandidate, Sort, Scored, IsScored, IsHit;
    var scored := Scored(values, query, stream, cosine);
    var all := Sort(scored, Better);
    ScoredMembers(values, query, stream, cosine);
    ScoredDistinct(values, query, stream, cosine);
    BetterIsTotal();
    SortSorts(scored, Better);
    SortDistinct(scored, Better, HitId);
    assert forall i, j | 0 <= i < j < |all| :: HitId(all[i]) != HitId(all[j]);
    SortMembers(scored, Better);
    AllHits(values, byId, query, stream, cosine, all);
  }

  function HitId(h: Hit): u64 {
    h.id
  }

  lemma AllHits(values: seq<Event>, byId: map<u64, Event>, query: seq<u32>, stream: Option<u64>,
                cosine: (seq<u32>, seq<u32>) -> u32, all: seq<Hit>)
    requires Lists(values, byId)
    requires forall h :: h in all <==> IsScored(h, values, query, stream, cosine)
    ensures forall i | 0 <= i < |all| :: IsHit(all[i], byId, query, stream, cosine)
    ensures forall id | id in Candidates(byId, stream) :: Hit(id, cosine(query, byId[id].vector)) in all
    ensures IdSet(all) == Candidates(byId, stream)
  {
    hide IsCandidate;
    forall h | h in all ensures IsHit(h, byId, query, stream, cosine) {
      assert IsScored(h, values, query, stream, cosine);
      var ev :| ev in values && IsCandidate(ev, stream) && h == Hit(ev.id, cosine(query, ev.vector));
    }
    forall id | id in Candidates(byId, stream) ensures Hit(id, cosine(query, byId[id].vector)) in all {
      assert byId[id].id == id && byId[id] in values;
      assert IsScored(Hit(id, cosine(query, byId[id].vector)), values, query, stream, cosine);
    }
    assert forall i | 0 <= i < |all| :: all[i] in all;
  }

  lemma {:induction false} CountDistinct(hits: seq<Hit>)
    requires DistinctIds(hits)
    ensures |IdSet(hits)| == |hits|
  {
    if hits == [] {
    } else {
      var rest := hits[1..];
      CountDistinct(rest);
      assert hits == [hits[0]] + rest;
      assert IdSet(hits) == {hits[0].id} + IdSet(rest);
    }
  }

  // ── The search request ──────────────────────────────────────────────────────

  /** Stream 0 means every stream. */
  function StreamFilter(stream: u64): Option<u64> {
    if stream == 0 then None else Some(stream)
  }

  /** Events a search can find: of the stream, or of any stream for 0, with a vector that is not all zeros. */
  ghost function Eligible(byId: map<u64, Event>, stream: u64): set<u64> {
    set id | id in byId && (stream == 0 || byId[id].streamId == stream) &&
      exists i | 0 <= i < |byId[id].vector| :: byId[id].vector[i] % 0x8000_0000 != 0
  }

  lemma EligibleIsCandidate(byId: map<u64, Event>, stream: u64)
    ensures Eligible(byId, stream) == Candidates(byId, StreamFilter(stream))
  {
    forall id | id in byId
      ensures (exists i | 0 <= i < |byId[id].vector| :: byId[id].vector[i] % 0x8000_0000 != 0) <==>
              exists i | 0 <= i < |byId[id].vector| :: NonZero(byId[id].vector[i])
    {
      SameZeros(byId[id].vector);
    }
  }

  lemma SameZeros(v: seq<u32>)
    ensures (exists i | 0 <= i < |v| :: v[i] % 0x8000_0000 != 0) <==> exists i | 0 <= i < |v| :: NonZero(v[i])
  {
    assert forall i | 0 <= i < |v| :: v[i] % 0x8000_0000 != 0 <==> NonZero(v[i]);
  }

  /** `out` are the best `n` eligible events with their scores, best first; whatever is left out scores no
      better than anything returned. */
  ghost predicate FindsBest(out: seq<(Event, u32)>, n: nat, byId: map<u64, Event>, query: seq<u32>, stream: u64,
                            cosine: (seq<u32>, seq<u32>) -> u32)
  {
    var eligible := Eligible(byId, stream);
    && |out| == (if n < |eligible| then n else |eligible|)
    && (forall i | 0 <= i < |out| ::
          out[i].0.id in eligible && out[i].0 == byId[out[i].0.id] && out[i].1 == cosine(query, out[i].0.vector))
    && (forall i, j | 0 <= i < j < |out| :: out[i].0.id != out[j].0.id && !ScoreBelow(out[i].1, out[j].1))
    && (forall id, i | id in eligible && 0 <= i < |out| && (forall j | 0 <= j < |out| :: out[j].0.id != id) ::
          !ScoreBelow(out[i].1, cosine(query, byId[id].vector)))
  }

  /** Answers a search request: the top hits with their events. */
  method AnswerSearch(values: seq<Event>, byId: map<u64, Event>, query: seq<u32>, k: nat, stream: u64,
                      cosine: (seq<u32>, seq<u32>) -> u32)
    returns (out: seq<(Event, u32)>)
    requires Lists(values, byId)
    ensures FindsBest(out, if k == 0 then 10 else if k < 256 then k else 256, byId, query, stream, cosine)
  {
    hide Search, Better, Candidates, IsCandidate;
    var top := ClampK(k, SEARCH_K_DEFAULT, SEARCH_K_CAP);
    var hits := Search(values, query, top, StreamFilter(stream), cosine);
    SearchIsTopK(values, byId, query, top, StreamFilter(stream), cosine);
    out := [];
    for i := 0 to |hits|
      invariant |out| == i
      invariant forall j | 0 <= j < i :: hits[j].id in byId && out[j] == (byId[hits[j].id], hits[j].score)
    {
      assert IsHit(hits[i], byId, query, StreamFilter(stream), cosine);
      if hits[i].id in byId {
        out := out + [(byId[hits[i].id], hits[i].score)];
      }
    }
    HitsAreBest(byId, query, top, stream, cosine, hits, out);
  }

  lemma HitsAreBest(byId: map<u64, Event>, query: seq<u32>, n: nat, stream: u64,
                    cosine: (seq<u32>, seq<u32>) -> u32, hits: seq<Hit>, out: seq<(Event, u32)>)
    requires forall id | id in byId :: byId[id].id == id
    requires var c := Candidates(byId, StreamFilter(stream));
             && |hits| == (if n < |c| then n else |c|)
             && (forall i | 0 <= i < |hits| :: IsHit(hits[i], byId, query, StreamFilter(stream), cosine))
             && DistinctIds(hits) && Sorted(hits, Better)
             && (forall id, i | id in c && id !in IdSet(hits) && 0 <= i < |hits| ::
                   Better(hits[i], Hit(id, cosine(query, byId[id].vector))))
    requires |out| == |hits|
    requires forall j | 0 <= j < |hits| :: hits[j].id in byId && out[j] == (byId[hits[j].id], hits[j].score)
    ensures FindsBest(out, n, byId, query, stream, cosine)
  {
    hide IsCandidate, TotalKey, ScoreBelow;
    EligibleIsCandidate(byId, stream);
    hide Eligible;
    forall a: u32, b: u32 ensures ScoreBelow(a, b) <==> TotalKey(a) < TotalKey(b) {
      ScoreOrder(a, b);
    }
    forall id | id in Eligible(byId, stream) && forall j | 0 <= j < |out| :: out[j].0.id != id
      ensures id !in IdSet(hits)
    {
      forall h | h in hits ensures h.id != id {
        var j :| 0 <= j < |hits| && hits[j] == h;
        assert out[j].0.id == h.id;
      }
    }
  }
}
