/** What meta.bin says: the header of a fresh store, what opening and appending count into it, and the
    counts a snapshot writes. */
module StoreHeaders {
  import opened Prelude
  import opened Format
  import opened EventLog
  import opened EventGraph
  import opened Recovery
  import opened StoreRuns
  import opened StoreSafety

  /** Opening a directory without a store makes one with the dimension given. */
  lemma FreshHeaderIs(dim: u16, now: Time)
    ensures var (img, r) := Open(Image(None, [], []), dim, now);
            && r.Ok? && r.value.log == [] && r.value.nextId == 1
            && r.value.header == MetaHeader(0x4F4D_454D, 2, dim, 0, 0, 0, now, None)
            && img.meta == Some(MetaBytes(r.value.header))
  {
    FreshOpens(dim, now);
    FreshImageGood(dim, now);
    hide ScanLog, MetaBytes, Load, Repair, Consistent;
    RepairConsistent([], [], dim);
    CountNothing(FreshHeader(dim, now));
  }

  /** What is stored wins over what is asked for. */
  lemma StoredDimensionWins(img: Image, dim: u16, now: Time)
    requires img.meta.Some? && Open(img, dim, now).1.Ok?
    ensures ReadMeta(img.meta.value).Ok?
    ensures Open(img, dim, now).1.value.header.vectorDim == ReadMeta(img.meta.value).value.vectorDim
    ensures Open(img, dim, now).0.meta == img.meta
  {
    hide ReadMeta, Load, CountAll, ReadIdxFile, Repair;
    var r := Repair(img.events, img.idx, ReadMeta(img.meta.value).value.vectorDim);
    CountAllDim(ReadMeta(img.meta.value).value, r.value.added);
  }

  function Plus(n: u64, k: nat): u64 {
    (n + k) % 0x1_0000_0000_0000_0000
  }

  /** Counting entries into a header adds their number, and keeps the highest id seen. */
  lemma {:induction false} CountedIn(h: MetaHeader, recs: seq<IdxRecord>)
    ensures var c := CountAll(h, recs);
            && c == h.(lastEventId := c.lastEventId, eventCount := c.eventCount)
            && c.eventCount == Plus(h.eventCount, |recs|)
            && h.lastEventId <= c.lastEventId && (forall i | 0 <= i < |recs| :: recs[i].eventId <= c.lastEventId)
            && (c.lastEventId == h.lastEventId || exists i | 0 <= i < |recs| :: recs[i].eventId == c.lastEventId)
  {
    if recs == [] {
    } else {
      var n := |recs| - 1;
      CountedIn(h, recs[..n]);
      hide CountAll;
      assert CountAll(h, recs) == CountIndexed(CountAll(h, recs[..n]), recs[n].eventId) by { CountLast(h, recs); }
      assert forall i | 0 <= i < n :: recs[..n][i] == recs[i];
    }
  }

  lemma CountLast(h: MetaHeader, recs: seq<IdxRecord>)
    requires recs != []
    ensures CountAll(h, recs) == CountIndexed(CountAll(h, recs[..|recs| - 1]), recs[|recs| - 1].eventId)
  {
  }

  /** An append counts one event more, under its id. */
  lemma AppendCounts(img: Image, s: Session, ev: Event, now: Time)
    requires Append(img, s, ev, now).Stored?
    ensures var h := Append(img, s, ev, now).session.header;
            && h == s.header.(lastEventId := h.lastEventId, eventCount := Plus(s.header.eventCount, 1))
            && h.lastEventId == if s.nextId > s.header.lastEventId then s.nextId else s.header.lastEventId
  {
    hide EventBytes, IdxBytes, Build, EncodeFailure;
  }

  function StreamIds(log: seq<Event>): set<u64> {
    set i | 0 <= i < |log| :: log[i].streamId
  }

  /** A snapshot writes how many events and streams there are, and when; it changes nothing else. */
  lemma SnapshotCounts(s: Session, now: Time)
    requires Sequential(s.log)
    ensures var h := SnapshotHeader(s, now);
            h == s.header.(eventCount := Plus(0, |s.log|), streamCount := Plus(0, |StreamIds(s.log)|),
                           lastSnapshotAt := Some(now))
  {
    hide Build;
    var g := Build(s.log);
    ByIdMeaning(s.log);
    IdsCounted(s.log);
    assert g.byId.Keys == Ids(s.log);
    StreamKeys(s.log);
  }

  lemma StreamKeys(log: seq<Event>)
    requires Sequential(log)
    ensures Build(log).streams.Keys == StreamIds(log)
  {
    hide Build, IdsOf, IsOpening;
    forall stream: u64 ensures stream in Build(log).streams <==> stream in StreamIds(log) {
      StreamsMeaning(log, stream);
      IdsOfMeaning(log, stream);
      if stream in StreamIds(log) {
        var i :| 0 <= i < |log| && log[i].streamId == stream;
        assert log[i].id in IdsOf(log, stream);
      }
      if IdsOf(log, stream) != [] {
        var id := IdsOf(log, stream)[0];
        assert id in IdsOf(log, stream) && log[id - 1].streamId == stream;
      }
    }
  }
}
