/** Paging through a stream of the event store, newest first. */
module MemServer {
  import opened Prelude
  import opened Format
  import opened EventGraph
  import opened Sorting

  // ── Paging ──────────────────────────────────────────────────────────────────

  predicate Later(a: u64, b: u64) {
    b <= a
  }

  function Descending(ids: seq<u64>): (r: seq<u64>)
    ensures |r| == |ids|
  {
    Sort(ids, Later)
  }

  /** Ids below the exclusive bound; 0 means no bound. */
  function Below(ids: seq<u64>, before: u64): (r: seq<u64>)
    ensures |r| <= |ids|
  {
    if ids == [] then [] else Keep(ids[0], before) + Below(ids[1..], before)
  }

  function Keep(id: u64, before: u64): (r: seq<u64>)
    ensures |r| <= 1
  {
    if before != 0 && id >= before then [] else [id]
  }

  /** The first `limit` ids below the bound; all of them when `limit` is 0. */
  function Page(ids: seq<u64>, limit: nat, before: u64): seq<u64> {
    var wanted := Below(ids, before);
    if limit == 0 || |wanted| <= limit then wanted else wanted[..limit]
  }

  function PageOf(log: seq<Event>, stream: u64, limit: nat, before: u64): seq<u64> {
    Page(Descending(IdsOf(log, stream)), limit, before)
  }

  predicate IdsIn(ids: seq<u64>, log: seq<Event>) {
    forall i | 0 <= i < |ids| :: 1 <= ids[i] <= |log|
  }

  function EventsOf(log: seq<Event>, ids: seq<u64>): (r: seq<Event>)
    requires IdsIn(ids, log)
    ensures |r| == |ids|
  {
    seq(|ids|, i requires 0 <= i < |ids| => log[ids[i] - 1])
  }

  lemma {:induction false} BelowMembers(ids: seq<u64>, before: u64)
    ensures forall id :: id in Below(ids, before) <==> id in ids && (before == 0 || id < before)
  {
    if ids == [] {
    } else {
      BelowMembers(ids[1..], before);
      assert forall id :: id in ids <==> id == ids[0] || id in ids[1..];
    }
  }

  /** The ids of a stream, newest first, all name events of the log. */
  lemma DescendingIds(log: seq<Event>, stream: u64)
    requires Sequential(log)
    ensures forall id :: id in Descending(IdsOf(log, stream)) <==> id in IdsOf(log, stream)
    ensures IdsIn(Descending(IdsOf(log, stream)), log)
  {
    IdsOfMeaning(log, stream);
    SortMembers(IdsOf(log, stream), Later);
    var ids := Descending(IdsOf(log, stream));
    assert forall i | 0 <= i < |ids| :: ids[i] in ids;
  }

  lemma BelowIn(ids: seq<u64>, before: u64, log: seq<Event>)
    requires IdsIn(ids, log)
    ensures IdsIn(Below(ids, before), log)
  {
    BelowMembers(ids, before);
    var b := Below(ids, before);
    assert forall i | 0 <= i < |b| :: b[i] in b;
  }

  /** `out` holds the events of the wanted ids up to where those of `rest` begin. */
  predicate Listed(log: seq<Event>, wanted: seq<u64>, rest: seq<u64>, before: u64, out: seq<Event>) {
    && IdsIn(wanted, log) && |out| <= |wanted|
    && wanted == wanted[..|out|] + Below(rest, before)
    && out == EventsOf(log, wanted[..|out|])
  }

  /** Whether the wanted ids up to `out` are the page. */
  predicate Full(limit: nat, rest: seq<u64>, out: seq<Event>) {
    if limit > 0 && |out| >= limit then |out| == limit else rest == []
  }

  /** One page of a stream, newest first. */
  method StreamEvents(g: Graph, ghost log: seq<Event>, stream: u64, limit: nat, before: u64) returns (out: seq<Event>)
    requires g == Build(log) && Sequential(log)
    ensures IdsIn(PageOf(log, stream, limit, before), log)
    ensures out == EventsOf(log, PageOf(log, stream, limit, before))
    ensures forall i | 0 <= i < |out| :: out[i] == log[PageOf(log, stream, limit, before)[i] - 1]
  {
    hide Build, IdsOf, Descending, Below, Listed, PageOf, IdsIn, Sequential;
    ByStreamMeaning(log, stream);
    var ids := Descending(Lookup(g.byStream, stream));
    ghost var wanted := Below(ids, before);
    ListStart(log, stream, before);
    out := [];
    var i := 0;
    assert ids[0..] == ids;
    while i < |ids|
      invariant i <= |ids| && (limit > 0 ==> |out| < limit)
      invariant Listed(log, wanted, ids[i..], before, out)
    {
      var id := ids[i];
      ListStep(log, wanted, ids, i, before, out);
      i := i + 1;
      if before != 0 && id >= before {
        continue;
      }
      Found(log, id);
      if id in g.byId {
        out := out + [g.byId[id]];
        if limit > 0 && |out| >= limit {
          break;
        }
      }
    }
    PageIsListed(log, stream, limit, before, ids[i..], out);
  }

  lemma Found(log: seq<Event>, id: u64)
    requires Sequential(log) && 1 <= id <= |log|
    ensures id in Build(log).byId && Build(log).byId[id] == log[id - 1]
  {
    hide Build;
    ByIdMeaning(log);
    assert log[id - 1].id == id;
  }

  lemma ListStart(log: seq<Event>, stream: u64, before: u64)
    requires Sequential(log)
    ensures var ids := Descending(IdsOf(log, stream)); Listed(log, Below(ids, before), ids, before, [])
  {
    hide IdsOf, Descending, Below;
    DescendingIds(log, stream);
    BelowIn(Descending(IdsOf(log, stream)), before, log);
    var wanted := Below(Descending(IdsOf(log, stream)), before);
    assert wanted == [] + wanted;
  }

  /** The next id is skipped, or names the next event of the page. */
  lemma ListStep(log: seq<Event>, wanted: seq<u64>, ids: seq<u64>, i: nat, before: u64, out: seq<Event>)
    requires i < |ids| && Listed(log, wanted, ids[i..], before, out)
    ensures if before != 0 && ids[i] >= before then Listed(log, wanted, ids[i + 1..], before, out)
            else 1 <= ids[i] <= |log| && Listed(log, wanted, ids[i + 1..], before, out + [log[ids[i] - 1]])
  {
    hide Below;
    var n, rest := |out|, Below(ids[i + 1..], before);
    assert ids[i..][1..] == ids[i + 1..];
    BelowStep(ids[i..], before);
    if before == 0 || ids[i] < before {
      assert wanted[n] == ids[i];
      assert wanted[..n + 1] == wanted[..n] + [ids[i]];
      assert wanted == wanted[..n + 1] + rest;
    }
  }

  lemma BelowStep(ids: seq<u64>, before: u64)
    requires ids != []
    ensures Below(ids, before) == Keep(ids[0], before) + Below(ids[1..], before)
  {
  }

  lemma PageIsListed(log: seq<Event>, stream: u64, limit: nat, before: u64, rest: seq<u64>, out: seq<Event>)
    requires Listed(log, Below(Descending(IdsOf(log, stream)), before), rest, before, out) && Full(limit, rest, out)
    ensures IdsIn(PageOf(log, stream, limit, before), log)
    ensures out == EventsOf(log, PageOf(log, stream, limit, before))
  {
    hide IdsOf, Descending;
    var wanted := Below(Descending(IdsOf(log, stream)), before);
    assert wanted[..|wanted|] == wanted;
  }

  /** A page is the newest ids of the stream below the bound: as many as asked for, or all there are. */
  lemma PageIsNewest(log: seq<Event>, stream: u64, limit: nat, before: u64)
    requires Sequential(log)
    ensures var page := PageOf(log, stream, limit, before);
            && (forall i, j | 0 <= i < j < |page| :: page[i] > page[j])
            && (forall id | id in page :: OnPage(log, stream, before, id))
            && (limit > 0 ==> |page| <= limit)
            && (forall id | OnPage(log, stream, before, id) && id !in page ::
                  limit > 0 && |page| == limit && forall x | x in page :: id < x)
  {
    hide IdsOf, Descending, Below, Sequential;
    IdsOfMeaning(log, stream);
    var ids := Descending(IdsOf(log, stream));
    DescendingIds(log, stream);
    Distinct(IdsOf(log, stream));
    BelowDescends(ids, before);
    BelowMembers(ids, before);
    var wanted, page := Below(ids, before), PageOf(log, stream, limit, before);
    forall id ensures id in wanted <==> OnPage(log, stream, before, id) {
    }
    forall id | id in wanted && id !in page ensures limit > 0 && |page| == limit && forall x | x in page :: id < x {
      var q :| 0 <= q < |wanted| && wanted[q] == id;
      assert forall n | 0 <= n < |page| :: page[n] == wanted[n];
    }
  }

  /** An id of the stream below the bound; 0 means no bound. */
  predicate OnPage(log: seq<Event>, stream: u64, before: u64, id: u64) {
    1 <= id <= |log| && log[id - 1].streamId == stream && (before == 0 || id < before)
  }

  // ── Paging through a growing stream ─────────────────────────────────────────

  predicate StrictlyDescending(ids: seq<u64>) {
    forall i, j | 0 <= i < j < |ids| :: ids[i] > ids[j]
  }

  lemma Distinct(ids: seq<u64>)
    requires Ascending(ids)
    ensures StrictlyDescending(Descending(ids))
  {
    SortSorts(ids, Later);
    SortDistinct(ids, Later, (id: u64) => id);
  }

  /** In a strictly descending list, the ids below the one at `j` are those behind it. */
  lemma {:induction false} BelowIsTail(ids: seq<u64>, j: nat)
    requires StrictlyDescending(ids) && j < |ids| && forall i | 0 <= i < |ids| :: ids[i] > 0
    ensures Below(ids, ids[j]) == ids[j + 1..]
  {
    if j == 0 {
      AllBelow(ids[1..], ids[0]);
    } else {
      BelowIsTail(ids[1..], j - 1);
    }
  }

  lemma {:induction false} AllBelow(ids: seq<u64>, bound: u64)
    requires bound == 0 || forall i | 0 <= i < |ids| :: ids[i] < bound
    ensures Below(ids, bound) == ids
  {
    if ids == [] {
    } else {
      AllBelow(ids[1..], bound);
      assert ids == [ids[0]] + ids[1..];
    }
  }

  lemma {:induction false} BelowDescends(ids: seq<u64>, before: u64)
    requires StrictlyDescending(ids)
    ensures StrictlyDescending(Below(ids, before))
  {
    if ids == [] {
    } else {
      var rest := Below(ids[1..], before);
      BelowDescends(ids[1..], before);
      BelowMembers(ids[1..], before);
      assert forall i | 0 <= i < |rest| :: rest[i] in rest;
    }
  }

  /** A strictly descending list is determined by its members. */
  lemma {:induction false} DescendingUnique(a: seq<u64>, b: seq<u64>)
    requires StrictlyDescending(a) && StrictlyDescending(b)
    requires forall id :: id in a <==> id in b
    ensures a == b
  {
    BothEmpty(a, b);
    if a == [] {
    } else {
      HeadIsLargest(a);
      HeadIsLargest(b);
      assert a[0] in a && b[0] in b;
      DescendingUnique(a[1..], b[1..]);
      assert a == [a[0]] + a[1..] && b == [b[0]] + b[1..];
    }
  }

  lemma BothEmpty(a: seq<u64>, b: seq<u64>)
    requires forall id :: id in a <==> id in b
    ensures a == [] <==> b == []
  {
    if a != [] { assert a[0] in a; }
    if b != [] { assert b[0] in b; }
  }

  lemma HeadIsLargest(a: seq<u64>)
    requires StrictlyDescending(a) && a != []
    ensures forall id | id in a :: id <= a[0]
    ensures forall id :: id in a[1..] <==> id in a && id != a[0]
    ensures StrictlyDescending(a[1..])
  {
    forall id | id in a && id != a[0] ensures id in a[1..] {
      var i :| 0 <= i < |a| && a[i] == id;
      assert a[1..][i - 1] == id;
    }
  }

  /** Later appends do not change what lies below a bound that the earlier log already reached. */
  lemma BelowStable(log: seq<Event>, longer: seq<Event>, stream: u64, before: u64)
    requires Sequential(longer) && log <= longer && 0 < before <= |log|
    ensures Below(Descending(IdsOf(longer, stream)), before) == Below(Descending(IdsOf(log, stream)), before)
  {
    hide IdsOf, Sort;
    var a, b := Descending(IdsOf(longer, stream)), Descending(IdsOf(log, stream));
    IdsOfMeaning(longer, stream); IdsOfMeaning(log, stream);
    Distinct(IdsOf(longer, stream)); Distinct(IdsOf(log, stream));
    DescendingIds(longer, stream); DescendingIds(log, stream);
    BelowDescends(a, before); BelowDescends(b, before);
    BelowMembers(a, before); BelowMembers(b, before);
    forall id ensures id in Below(a, before) <==> id in Below(b, before) {
      if 1 <= id < before { assert longer[id - 1] == log[id - 1]; }
    }
    DescendingUnique(Below(a, before), Below(b, before));
  }

  /** The next page after the `j`-th id of the first listing, taken from any later log, continues
      that listing exactly. */
  lemma NextPage(log: seq<Event>, longer: seq<Event>, stream: u64, limit: nat, j: nat)
    requires Sequential(longer) && log <= longer && limit > 0
    requires j < |IdsOf(log, stream)|
    ensures var first := Descending(IdsOf(log, stream));
            PageOf(longer, stream, limit, first[j]) == first[j + 1..Smaller(j + 1 + limit, |first|)]
  {
    hide IdsOf, Sort;
    var first := Descending(IdsOf(log, stream));
    DescendingIds(log, stream);
    IdsOfMeaning(log, stream);
    Distinct(IdsOf(log, stream));
    BelowStable(log, longer, stream, first[j]);
    BelowIsTail(first, j);
  }

  function Smaller(a: nat, b: nat): nat {
    if a < b then a else b
  }

  /** A client that asks for page after page, each time with the last id it has seen, while the log
      grows from request to request. It stops at the first empty page. */
  function Walk(logs: seq<seq<Event>>, stream: u64, limit: nat, before: u64): seq<u64> {
    if logs == [] then [] else
    var page := PageOf(logs[0], stream, limit, before);
    if page == [] then [] else page + Walk(logs[1..], stream, limit, page[|page| - 1])
  }

  predicate Growing(logs: seq<seq<Event>>) {
    && (forall i | 0 <= i < |logs| :: Sequential(logs[i]))
    && (forall i, j | 0 <= i < j < |logs| :: logs[i] <= logs[j])
  }

  /** How far `n` pages reach in a listing of `size` ids. */
  function Reached(from: nat, n: nat, limit: nat, size: nat): nat {
    Smaller(from + n * limit, size)
  }

  lemma ReachedStep(from: nat, n: nat, limit: nat, size: nat)
    requires from <= size && n > 0 && limit > 0
    ensures var k := Smaller(from + limit, size);
            && from <= k <= size && (k == from <==> from == size)
            && k <= Reached(k, n - 1, limit, size) == Reached(from, n, limit, size) <= size
  {
    assert n * limit == limit + (n - 1) * limit;
  }

  lemma ReachedNothing(from: nat, limit: nat, size: nat)
    requires from <= size
    ensures Reached(from, 0, limit, size) == from
  {
  }

  /** Walking on from position `j` of the first listing yields the rest of it, page by page. */
  lemma {:induction false} WalkOn(log: seq<Event>, logs: seq<seq<Event>>, stream: u64, limit: nat, j: nat)
    requires limit > 0 && Growing([log] + logs) && j < |IdsOf(log, stream)|
    ensures var first := Descending(IdsOf(log, stream));
            && j + 1 <= Reached(j + 1, |logs|, limit, |first|) <= |first|
            && Walk(logs, stream, limit, first[j]) == first[j + 1..Reached(j + 1, |logs|, limit, |first|)]
  {
    hide IdsOf, Descending, PageOf, Sequential, Growing, Smaller, Reached;
    var first := Descending(IdsOf(log, stream));
    if logs == [] {
      ReachedNothing(j + 1, limit, |first|);
    } else {
      GrowingSkip(log, logs);
      NextPage(log, logs[0], stream, limit, j);
      ReachedStep(j + 1, |logs|, limit, |first|);
      var k := Smaller(j + 1 + limit, |first|);
      var page := PageOf(logs[0], stream, limit, first[j]);
      if page != [] {
        WalkOn(log, logs[1..], stream, limit, k - 1);
        assert page[|page| - 1] == first[k - 1];
        Slices(first, j + 1, k, Reached(k, |logs| - 1, limit, |first|));
      }
    }
  }

  lemma GrowingSkip(log: seq<Event>, logs: seq<seq<Event>>)
    requires logs != [] && Growing([log] + logs)
    ensures Growing([log] + logs[1..]) && Sequential(logs[0]) && log <= logs[0]
  {
    hide Sequential;
    var all, fewer := [log] + logs, [log] + logs[1..];
    assert all[0] == log && all[1] == logs[0];
    assert forall i | 0 <= i < |fewer| :: fewer[i] == if i == 0 then all[0] else all[i + 1];
  }

  /** Paging enumerates, newest first and each exactly once, the ids the stream had at the first
      request, whatever is appended meanwhile: after `n` requests with limit `limit` the client has
      the first `n * limit` of them. */
  lemma PagingEnumerates(logs: seq<seq<Event>>, stream: u64, limit: nat)
    requires limit > 0 && logs != [] && Growing(logs)
    ensures var first := Descending(IdsOf(logs[0], stream));
            && StrictlyDescending(first) && (forall id :: id in first <==> id in IdsOf(logs[0], stream))
            && Walk(logs, stream, limit, 0) == first[..Smaller(|logs| * limit, |first|)]
  {
    hide IdsOf, Sort, PageOf, Descending;
    var log, rest := logs[0], logs[1..];
    var first := Descending(IdsOf(log, stream));
    FirstPage(log, stream, limit);
    var k := Smaller(limit, |first|);
    if first != [] {
      assert [log] + rest == logs;
      WalkOn(log, rest, stream, limit, k - 1);
      ReachedStep(0, |logs|, limit, |first|);
      Slices(first, 0, k, Reached(k, |rest|, limit, |first|));
    }
  }

  lemma Slices(s: seq<u64>, i: nat, j: nat, k: nat)
    requires i <= j <= k <= |s|
    ensures s[i..j] + s[j..k] == s[i..k]
  {
  }

  lemma FirstPage(log: seq<Event>, stream: u64, limit: nat)
    requires Sequential(log) && limit > 0
    ensures var first := Descending(IdsOf(log, stream));
            && StrictlyDescending(first) && (forall id :: id in first <==> id in IdsOf(log, stream))
            && PageOf(log, stream, limit, 0) == first[..Smaller(limit, |first|)]
  {
    hide IdsOf, Sort;
    IdsOfMeaning(log, stream);
    Distinct(IdsOf(log, stream));
    DescendingIds(log, stream);
    AllBelow(Descending(IdsOf(log, stream)), 0);
  }

  /** Behind the last id of the first listing every later page is empty. */
  lemma PagingEnds(log: seq<Event>, longer: seq<Event>, stream: u64, limit: nat)
    requires Sequential(longer) && log <= longer && limit > 0 && IdsOf(log, stream) != []
    ensures var first := Descending(IdsOf(log, stream)); PageOf(longer, stream, limit, first[|first| - 1]) == []
  {
    NextPage(log, longer, stream, limit, |IdsOf(log, stream)| - 1);
  }
}
