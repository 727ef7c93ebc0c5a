/** The store as it runs: a disk whose files are written, synced and truncated step by step, and the
    object that owns it. Every operation is proved to compute its specification in `StoreRuns`, and
    every medium that a death could leave on the way is proved to be one the specification allows. */
module Store {
  import opened Prelude
  import opened Format
  import opened Codec
  import opened EventLog
  import opened EventGraph
  import opened Recovery
  import opened StoreRuns

  /** The file grew on the way from `a` to `b`, and the process died there. */
  ghost predicate EventsOnTheWay(a: Medium, x: Medium, b: Medium) {
    && Sound(x) && x.image == a.image.(events := x.image.events) && x.idx == a.idx
    && (OnTheWay(a.image.events, x.image.events, b.image.events) || OnTheWay(b.image.events, x.image.events, a.image.events))
    && x.events <= a.events + EventSpan(a.image.events, x.image.events) + EventSpan(b.image.events, a.image.events)
  }

  ghost predicate IdxOnTheWay(a: Medium, x: Medium, b: Medium) {
    && Sound(x) && x.image == a.image.(idx := x.image.idx) && x.events == a.events
    && OnTheWay(a.image.idx, x.image.idx, b.image.idx)
    && x.idx <= a.idx + Span(a.image.idx, x.image.idx)
  }

  /** Repair syncs the files it changed. */
  ghost function AfterRepair(m: Medium, done: Repaired): Medium {
    Medium(m.image.(events := done.events, idx := done.idx),
           if done.events == m.image.events then m.events else iset{done.events},
           if done.added == [] then m.idx else iset{done.idx})
  }

  /** The three files of a store directory. meta.bin is replaced atomically. */
  class Disk {
    var meta: Option<Bytes>
    var events: FileBytes
    var idx: Bytes
    /** What the medium may fall back to when the power fails. */
    ghost var eventsMay: iset<FileBytes>
    ghost var idxMay: iset<Bytes>
    /** Every medium that a death at any moment so far could have left. */
    ghost var left: iset<Medium>

    ghost function Now(): Image
      reads this
    {
      Image(meta, events, idx)
    }

    ghost function Here(): Medium
      reads this
    {
      Medium(Now(), eventsMay, idxMay)
    }

    method WriteMeta(b: Bytes)
      modifies this`meta, this`left
      ensures meta == Some(b)
      ensures left == old(left) + iset{Here()}
    {
      meta := Some(b);
      left := left + iset{Here()};
    }

    /** Writes at the end of events.bin; refused when the file would outgrow its offsets. */
    method WriteEventsAt(buf: Bytes, off: nat) returns (ok: bool)
      requires off == |events|
      modifies this`events, this`eventsMay, this`left
      ensures ok <==> |old(events)| + |buf| <= MAX_FILE
      ensures events == if ok then old(events) + buf else old(events)
      ensures eventsMay == if ok then old(eventsMay) + EventSpan(old(events), events) else old(eventsMay)
      ensures left == if ok then old(left) + (iset x | EventsOnTheWay(old(Here()), x, Here())) else old(left)
    {
      ok := |events| + |buf| <= MAX_FILE;
      if ok {
        ghost var before := Here();
        events := events + buf;
        eventsMay := eventsMay + EventSpan(before.image.events, events);
        left := left + (iset x | EventsOnTheWay(before, x, Here()));
      }
    }

    method SyncEvents()
      modifies this`eventsMay, this`left
      ensures eventsMay == iset{events}
      ensures left == old(left) + iset{Here()}
    {
      eventsMay := iset{events};
      left := left + iset{Here()};
    }

    method SetEventsLen(n: nat)
      requires n <= |events|
      modifies this`events, this`eventsMay, this`left
      ensures events == old(events)[..n]
      ensures eventsMay == old(eventsMay) + EventSpan(events, old(events))
      ensures left == old(left) + (iset x | EventsOnTheWay(old(Here()), x, Here()))
    {
      ghost var before := Here();
      events := events[..n];
      eventsMay := eventsMay + EventSpan(events, before.image.events);
      left := left + (iset x | EventsOnTheWay(before, x, Here()));
    }

    method WriteIdxAt(buf: Bytes, off: nat)
      requires off == |idx|
      modifies this`idx, this`idxMay, this`left
      ensures idx == old(idx) + buf
      ensures idxMay == old(idxMay) + Span(old(idx), idx)
      ensures left == old(left) + (iset x | IdxOnTheWay(old(Here()), x, Here()))
    {
      ghost var before := Here();
      idx := idx + buf;
      idxMay := idxMay + Span(before.image.idx, idx);
      left := left + (iset x | IdxOnTheWay(before, x, Here()));
    }

    method SyncIdx()
      modifies this`idxMay, this`left
      ensures idxMay == iset{idx}
      ensures left == old(left) + iset{Here()}
    {
      idxMay := iset{idx};
      left := left + iset{Here()};
    }
  }

  class Store {
    const disk: Disk
    var header: MetaHeader
    var eventsBytes: nat
    var idxBytes: nat

    var byId: map<u64, Event>
    var byStream: map<u64, seq<u64>>
    var inverseRefs: map<u64, seq<InverseRef>>
    var streams: map<u64, Stream>
    var nextEventId: u64

    /** The events absorbed so far, in order. */
    ghost var log: seq<Event>

    ghost function Graph(): Graph
      reads this
    {
      EventGraph.Graph(byId, byStream, inverseRefs, streams)
    }

    ghost function Session(): Session
      reads this
    {
      StoreRuns.Session(header, log, nextEventId)
    }

    ghost predicate Valid()
      reads this, disk
    {
      && Sound(disk.Here())
      && eventsBytes == |disk.events| && idxBytes == |disk.idx|
      && Graph() == Build(log)
    }

    constructor (disk: Disk, header: MetaHeader)
      requires Sound(disk.Here())
      ensures this.disk == disk && this.header == header
      ensures Valid() && log == []
    {
      this.disk := disk;
      this.header := header;
      eventsBytes, idxBytes := |disk.events|, |disk.idx|;
      byId, byStream, inverseRefs, streams := map[], map[], map[], map[];
      nextEventId := 1;
      log := [];
    }

    // ── Absorbing ─────────────────────────────────────────────────────────────

    /** Inserts one event into the four maps. */
    method Absorb(ev: Event)
      requires Graph() == Build(log)
      modifies this`byId, this`byStream, this`inverseRefs, this`streams, this`log
      ensures log == old(log) + [ev]
      ensures Graph() == Build(log)
    {
      hide Build, AbsorbRefs, AbsorbStream;
      BuildSnoc(log, ev);
      byStream := byStream[ev.streamId := (if ev.streamId in byStream then byStream[ev.streamId] else []) + [ev.id]];
      JoinStream(ev);
      PointBack(ev.id, ev.refs);
      byId := byId[ev.id := ev];
      log := log + [ev];
    }

    /** Lists the event under its stream, opening the stream or moving its opening back as needed. */
    method JoinStream(ev: Event)
      modifies this`streams
      ensures streams == AbsorbStream(old(streams), ev)
    {
      var stream := if ev.streamId in streams then streams[ev.streamId]
                    else Stream(ev.streamId, "", ev.createdAt, None, []);
      if ev.createdAt < stream.openedAt {
        stream := stream.(openedAt := ev.createdAt);
      }
      stream := stream.(eventIds := stream.eventIds + [ev.id]);
      streams := streams[ev.streamId := stream];
    }

    method PointBack(id: u64, refs: seq<Ref>)
      modifies this`inverseRefs
      ensures inverseRefs == AbsorbRefs(old(inverseRefs), id, refs)
    {
      for i := 0 to |refs|
        invariant inverseRefs == AbsorbRefs(old(inverseRefs), id, refs[..i])
      {
        var r := refs[i];
        assert refs[..i + 1][..i] == refs[..i];
        inverseRefs := inverseRefs[r.targetEventId :=
          (if r.targetEventId in inverseRefs then inverseRefs[r.targetEventId] else []) + [InverseRef(id, r.kind)]];
      }
      assert refs[..|refs|] == refs;
    }

    // ── Appending ─────────────────────────────────────────────────────────────

    /** Fills in the offset hint of every ref whose target is known. */
    method FillHints(refs: seq<Ref>) returns (filled: seq<Ref>)
      ensures filled == Hinted(refs, byId)
    {
      filled := [];
      for i := 0 to |refs|
        invariant |filled| == i && forall j | 0 <= j < i :: filled[j] == Hint(refs[j], byId)
      {
        var r := refs[i];
        if r.targetEventId in byId {
          r := r.(targetOffsetCache := byId[r.targetEventId].fileOffset);
        }
        filled := filled + [r];
      }
    }

    /** Record first, then index entry, each followed by a sync. */
    method Persist(rec: Bytes, entry: Bytes) returns (ok: bool)
      requires Sound(disk.Here()) && eventsBytes == |disk.events| && idxBytes == |disk.idx|
      modifies this`eventsBytes, this`idxBytes, disk
      ensures Sound(disk.Here()) && eventsBytes == |disk.events| && idxBytes == |disk.idx|
      ensures ok <==> |old(disk.events)| + |rec| <= MAX_FILE
      ensures ok ==> disk.Now() == old(disk.Now()).(events := old(disk.events) + rec, idx := old(disk.idx) + entry)
      ensures ok ==> disk.Here() == Settled(disk.Now())
      ensures !ok ==> disk.Here() == old(disk.Here()) && disk.left == old(disk.left)
      ensures forall x | x in disk.left && x !in old(disk.left) :: WritesPass(old(disk.Here()), rec, entry, x)
    {
      hide EventsOnTheWay, IdxOnTheWay, WritesPass;
      ghost var before := disk.Here();
      ok := disk.WriteEventsAt(rec, eventsBytes);
      if ok {
        ghost var written := disk.Here();
        forall x | EventsOnTheWay(before, x, written) ensures WritesPass(before, rec, entry, x) {
          RecordPasses(before, written, x, rec, entry);
        }
        disk.SyncEvents();
        ghost var middle := disk.Here();
        eventsBytes := eventsBytes + |rec|;
        disk.WriteIdxAt(entry, idxBytes);
        forall x | IdxOnTheWay(middle, x, disk.Here()) ensures WritesPass(before, rec, entry, x) {
          IndexPasses(before, middle, disk.Here(), x, rec, entry);
        }
        disk.SyncIdx();
        ghost var after := disk.Here();
        SyncedArrives(middle, after, entry);
        IndexPasses(before, middle, after, middle, rec, entry);
        IndexPasses(before, middle, after, after, rec, entry);
        idxBytes := idxBytes + |entry|;
      }
    }

    /** Assigns the next id, completes and encodes the event, persists it, and absorbs it. */
    method AppendEvent(event: Event, now: Time) returns (r: Result<u64, StoreError>)
      requires Valid()
      modifies this, disk
      ensures Valid()
      ensures match Append(old(disk.Now()), old(Session()), event, now)
              case Refused(e) =>
                r == Err(BadFormat(e)) && disk.Here() == old(disk.Here()) && Session() == old(Session())
                && disk.left == old(disk.left)
              case NoRoom =>
                r == Err(Io) && disk.Here() == old(disk.Here()) && Session() == old(Session())
                && disk.left == old(disk.left)
              case Stored(img, s, p) =>
                r == Ok(p.id) && disk.Here() == Settled(img) && Session() == s
                && forall x | x in disk.left && x !in old(disk.left) ::
                     AppendLeaves(old(disk.Here()), old(Session()), p, x)
      ensures r.Ok? ==> |log| == |old(log)| + 1 && log[..|old(log)|] == old(log)
                        && log[|old(log)|].id == r.value && Fills(log[|old(log)|], event, now, old(log))
    {
      hide Build, EventBytes, IdxBytes, EncodeFailure, WritesPass, Fills;
      ghost var was, before := disk.Now(), Session();
      var ev := event;
      var id := nextEventId;
      ev := ev.(id := id);
      if TimeToNanos(ev.createdAt) == 0 {
        ev := ev.(createdAt := now);
      }
      var filled := FillHints(ev.refs);
      ev := ev.(refs := filled);

      var encoded := EncodeEvent(ev, header.vectorDim);
      SameRecord(ev, Prepare(event, Session(), now, |disk.events|), header.vectorDim);
      if encoded.Err? {
        return Err(BadFormat(encoded.error));
      }
      var buf := encoded.value;
      var offset := eventsBytes;
      EncodedSize(ev, header.vectorDim);
      var ok := Persist(buf, IdxBytes(IdxRecord(id, offset, |buf|, ev.createdAt)));
      if !ok {
        return Err(Io);
      }
      header := CountIndexed(header, id);
      ev := ev.(fileOffset := offset);
      Absorb(ev);
      nextEventId := WrappingInc(id);
      StoredIsSent(was, before, event, now);
      return Ok(id);
    }

    // ── Opening ───────────────────────────────────────────────────────────────

    method AppendIdxRecord(rec: IdxRecord)
      requires Sound(disk.Here()) && idxBytes == |disk.idx|
      modifies this`header, this`idxBytes, disk`idx, disk`idxMay, disk`left
      ensures Sound(disk.Here()) && idxBytes == |disk.idx|
      ensures disk.idx == old(disk.idx) + IdxBytes(rec) && disk.idxMay == iset{disk.idx}
      ensures header == CountIndexed(old(header), rec.eventId)
      ensures forall x | x in disk.left && x !in old(disk.left) :: IdxOnTheWay(old(disk.Here()), x, disk.Here())
    {
      hide IdxBytes;
      disk.WriteIdxAt(IdxBytes(rec), idxBytes);
      disk.SyncIdx();
      idxBytes := idxBytes + IDX_RECORD_SIZE;
      header := CountIndexed(header, rec.eventId);
    }

    /** Indexes the records behind the last index entry and cuts off what does not decode. */
    method RepairIdx() returns (r: Result<nat, StoreError>)
      requires Sound(disk.Here()) && eventsBytes == |disk.events| && idxBytes == |disk.idx| && Aligned(disk.idx)
      modifies this`header, this`eventsBytes, this`idxBytes, disk
      ensures Sound(disk.Here()) && eventsBytes == |disk.events| && idxBytes == |disk.idx|
      ensures disk.meta == old(disk.meta)
      ensures match Repair(old(disk.events), old(disk.idx), old(header.vectorDim))
              case Err(e) =>
                r == Err(e) && disk.Here() == old(disk.Here()) && disk.left == old(disk.left) && header == old(header)
              case Ok(done) =>
                r == Ok(|done.added|) && disk.Here() == AfterRepair(old(disk.Here()), done)
                && header == CountAll(old(header), done.added)
                && forall x | x in disk.left && x !in old(disk.left) :: RepairPasses(old(disk.Here()), done, x)
    {
      hide RepairFrom, IdxSlot, RepairPasses;
      var n := idxBytes / IDX_RECORD_SIZE;
      var covered := 0;
      if n > 0 {
        var last := IdxSlot(disk.idx, n - 1);
        covered := last.fileOffset + last.recordLen;
      }
      if covered > eventsBytes {
        return Err(IdxAhead(covered, eventsBytes));
      }
      var added := RepairTail(covered);
      return Ok(added);
    }

    method RepairTail(covered: nat) returns (added: nat)
      requires Sound(disk.Here()) && eventsBytes == |disk.events| && idxBytes == |disk.idx| && Aligned(disk.idx)
      requires covered <= |disk.events|
      modifies this`header, this`eventsBytes, this`idxBytes, disk
      ensures Sound(disk.Here()) && eventsBytes == |disk.events| && idxBytes == |disk.idx|
      ensures disk.meta == old(disk.meta)
      ensures var done := RepairFrom(old(disk.events), old(disk.idx), old(header.vectorDim), covered);
              && added == |done.added| && disk.Here() == AfterRepair(old(disk.Here()), done)
              && header == CountAll(old(header), done.added)
              && forall x | x in disk.left && x !in old(disk.left) :: RepairPasses(old(disk.Here()), done, x)
    {
      hide ScanLog, IdxFile, IdxBytes, DecodeEvent, Join, One, CountAll, RepairPasses, IdxOnTheWay, EventsOnTheWay;
      var dim, tail := header.vectorDim, disk.events[covered..];
      ghost var found, before := ScanLog(tail, dim, covered), disk.Here();
      var off := 0;
      added := 0;
      StartScan(found, tail, dim, covered, header);
      while off < |tail|
        invariant off <= |tail| && header.vectorDim == dim
        invariant Remaining(found, added, off, ScanLog(tail[off..], dim, covered + off))
        invariant disk.events == old(disk.events) && disk.meta == old(disk.meta) && disk.eventsMay == old(disk.eventsMay)
        invariant disk.idx == old(disk.idx) + IdxFile(found.idx[..added])
        invariant disk.idxMay == if added == 0 then old(disk.idxMay) else iset{disk.idx}
        invariant Sound(disk.Here()) && eventsBytes == |disk.events| && idxBytes == |disk.idx|
        invariant header == CountAll(old(header), found.idx[..added])
        invariant forall x | x in disk.left && x !in old(disk.left) :: IdxOnTheWay(before, x, disk.Here())
      {
        var decoded := DecodeEventAt(tail[off..], dim);
        if decoded.Err? {
          AllFound(found, added, off, tail[off..], dim, covered + off);
          ghost var middle := disk.Here();
          ghost var done := RepairFrom(old(disk.events), old(disk.idx), dim, covered);
          forall x | IdxOnTheWay(before, x, middle) ensures RepairPasses(before, done, x) {
            EntryPasses(before, middle, x, done);
          }
          CutEvents(covered + off);
          forall x | EventsOnTheWay(middle, x, disk.Here()) ensures RepairPasses(before, done, x) {
            CutPasses(before, middle, disk.Here(), x, done);
          }
          return;
        }
        var (ev, len) := decoded.value;
        ResumedStep(found, added, off, tail, dim, covered, old(header));
        ghost var here := disk.Here();
        AppendIdxRecord(IdxRecord(ev.id, covered + off, len, ev.createdAt));
        forall x | IdxOnTheWay(here, x, disk.Here()) || IdxOnTheWay(before, x, here)
          ensures IdxOnTheWay(before, x, disk.Here())
        {
          WayGoesOn(before, here, disk.Here(), x);
        }
        off, added := off + len, added + 1;
      }
      AllFound(found, added, off, tail[off..], dim, covered + off);
      ghost var done := RepairFrom(old(disk.events), old(disk.idx), dim, covered);
      forall x | IdxOnTheWay(before, x, disk.Here()) ensures RepairPasses(before, done, x) {
        EntryPasses(before, disk.Here(), x, done);
      }
    }

    /** Drops a partial trailing record so that the next append writes at a clean boundary. */
    method CutEvents(clean: nat)
      requires clean <= |disk.events| && Sound(disk.Here())
      modifies this`eventsBytes, disk`events, disk`eventsMay, disk`left
      ensures disk.events == old(disk.events)[..clean] && eventsBytes == clean && disk.eventsMay == iset{disk.events}
      ensures forall x | x in disk.left && x !in old(disk.left) :: EventsOnTheWay(old(disk.Here()), x, disk.Here())
    {
      disk.SetEventsLen(clean);
      disk.SyncEvents();
      eventsBytes := clean;
    }

    method ReadAllIdxRecords() returns (recs: seq<IdxRecord>)
      requires idxBytes == |disk.idx| && Aligned(disk.idx)
      ensures recs == ReadIdxFile(disk.idx)
    {
      hide IdxSlot;
      var count := idxBytes / IDX_RECORD_SIZE;
      recs := [];
      for i := 0 to count
        invariant |recs| == i && forall j | 0 <= j < i :: recs[j] == IdxSlot(disk.idx, j)
      {
        recs := recs + [IdxSlot(disk.idx, i)];
      }
    }

    method ReadEventsRange(start: nat, end: nat) returns (r: Result<Bytes, StoreError>)
      requires start <= end
      ensures r == if end > |disk.events| then Err(Io) else Ok(disk.events[start..end])
    {
      if end > |disk.events| {
        return Err(Io);
      }
      return Ok(disk.events[start..end]);
    }

    method ReadEvent(rec: IdxRecord) returns (r: Result<Event, StoreError>)
      ensures r == LoadOne(disk.events, rec, header.vectorDim)
    {
      hide DecodeEvent;
      var buf := ReadEventsRange(rec.fileOffset, rec.fileOffset + rec.recordLen);
      if buf.Err? {
        return Err(buf.error);
      }
      var decoded := DecodeEventAt(buf.value, header.vectorDim);
      if decoded.Err? {
        return Err(BadFormat(decoded.error));
      }
      return Ok(decoded.value.0.(fileOffset := rec.fileOffset));
    }

    /** Decodes and absorbs every indexed event, in index order. */
    method AbsorbIndexed() returns (r: Result<(), StoreError>)
      requires Valid() && log == [] && Aligned(disk.idx)
      modifies this`byId, this`byStream, this`inverseRefs, this`streams, this`log, this`nextEventId
      ensures match Load(disk.events, ReadIdxFile(disk.idx), header.vectorDim)
              case Err(e) => r == Err(e)
              case Ok(evs) => r == Ok(()) && Valid() && log == evs && nextEventId == WrappingInc(MaxId(ReadIdxFile(disk.idx)))
    {
      hide Load, LoadOne, ReadIdxFile, Build, MaxId;
      var recs := ReadAllIdxRecords();
      var maxId: u64 := 0;
      LoadNothing(disk.events, header.vectorDim);
      for i := 0 to |recs|
        invariant recs[..0] == [] && Valid()
        invariant Load(disk.events, recs[..i], header.vectorDim) == Ok(log)
        invariant maxId == MaxId(recs[..i])
      {
        LoadNext(disk.events, recs, i, header.vectorDim);
        var ev := ReadEvent(recs[i]);
        if ev.Err? {
          return Err(ev.error);
        }
        if recs[i].eventId > maxId {
          maxId := recs[i].eventId;
        }
        Absorb(ev.value);
      }
      assert recs[..|recs|] == recs;
      nextEventId := WrappingInc(maxId);
      return Ok(());
    }

    /** Attaches to the store on `disk`, or creates one; the stored dimension wins. */
    static method OpenOrCreate(disk: Disk, dim: u16, now: Time) returns (r: Result<Store, StoreError>)
      requires Sound(disk.Here())
      modifies disk
      ensures disk.Here() == Opened(old(disk.Here()), dim, now).0
      ensures match Opened(old(disk.Here()), dim, now).1
              case Err(e) => r == Err(e)
              case Ok(s) => r.Ok? && r.value.disk == disk && r.value.Valid() && r.value.Session() == s && fresh(r.value)
      ensures forall x | x in disk.left && x !in old(disk.left) :: OpenLeaves(old(disk.Here()), dim, now, x)
    {
      hide Repair, Load, ReadIdxFile, CountAll, MaxId, Build, MetaBytes;
      var header: MetaHeader;
      if disk.meta.Some? {
        var read := ReadMeta(disk.meta.value);
        if read.Err? {
          return Err(read.error);
        }
        header := read.value;
      } else {
        header := FreshHeader(dim, now);
        disk.WriteMeta(MetaBytes(header));
      }
      if |disk.idx| % IDX_RECORD_SIZE != 0 {
        return Err(IdxMisaligned(|disk.idx|));
      }
      var store := new Store(disk, header);
      var repaired := store.RepairIdx();
      if repaired.Err? {
        return Err(repaired.error);
      }
      RepairAdds(old(disk.events), old(disk.idx), header.vectorDim);
      CountAllDim(header, Repair(old(disk.events), old(disk.idx), header.vectorDim).value.added);
      var loaded := store.AbsorbIndexed();
      if loaded.Err? {
        return Err(loaded.error);
      }
      return Ok(store);
    }

    // ── Snapshots ─────────────────────────────────────────────────────────────

    /** Rewrites meta.bin with current counts. */
    method Snapshot(now: Time)
      requires Valid()
      modifies this`header, disk
      ensures Valid()
      ensures header == SnapshotHeader(old(Session()), now)
      ensures disk.Here() == WithMeta(old(disk.Here()), MetaBytes(header))
      ensures forall x | x in disk.left && x !in old(disk.left) :: x == disk.Here()
    {
      hide Build, MetaBytes;
      header := header.(eventCount := |byId| % 0x1_0000_0000_0000_0000);
      header := header.(streamCount := |streams| % 0x1_0000_0000_0000_0000);
      header := header.(lastSnapshotAt := Some(now));
      disk.WriteMeta(MetaBytes(header));
    }
  }

  lemma RepairAdds(events: FileBytes, idx: Bytes, dim: u16)
    requires Aligned(idx) && Repair(events, idx, dim).Ok?
    ensures Repair(events, idx, dim).value.added == [] <==> Repair(events, idx, dim).value.idx == idx
  {
    hide ScanLog, CoveredEnd;
  }

  /** Further along the same way. */
  lemma WayGoesOn(a: Medium, b: Medium, c: Medium, x: Medium)
    requires b.image == a.image.(idx := b.image.idx) && b.events == a.events && a.image.idx <= b.image.idx <= c.image.idx
    requires b.idx <= a.idx + iset{b.image.idx}
    requires IdxOnTheWay(b, x, c) || IdxOnTheWay(a, x, b)
    ensures IdxOnTheWay(a, x, c)
  {
  }

  /** A death while an entry is written, seen from the start of the repair. */
  lemma EntryPasses(before: Medium, here: Medium, x: Medium, r: Repaired)
    requires here.image == before.image.(idx := here.image.idx) && here.events == before.events
    requires before.image.idx <= here.image.idx <= r.idx && r.events <= before.image.events
    requires IdxOnTheWay(before, x, here)
    ensures RepairPasses(before, r, x)
  {
  }

  /** A death while the torn tail is cut off, seen from the start of the repair. */
  lemma CutPasses(before: Medium, middle: Medium, after: Medium, x: Medium, r: Repaired)
    requires middle.image == before.image.(idx := r.idx) && middle.events == before.events && before.image.idx <= r.idx
    requires middle.idx <= before.idx + iset{r.idx}
    requires after.image.events == r.events && r.events <= before.image.events
    requires EventsOnTheWay(middle, x, after)
    ensures RepairPasses(before, r, x)
  {
  }

  lemma SyncedArrives(middle: Medium, after: Medium, entry: Bytes)
    requires Sound(middle)
    requires after == Medium(middle.image.(idx := middle.image.idx + entry), middle.events, iset{after.image.idx})
    ensures IdxOnTheWay(middle, middle, after) && IdxOnTheWay(middle, after, after)
  {
  }

  /** A death while the record is written, and one while its entry is. */
  lemma RecordPasses(before: Medium, middle: Medium, x: Medium, rec: Bytes, entry: Bytes)
    requires middle.image.events == before.image.events + rec && EventsOnTheWay(before, x, middle)
    ensures WritesPass(before, rec, entry, x)
  {
  }

  lemma IndexPasses(before: Medium, middle: Medium, after: Medium, x: Medium, rec: Bytes, entry: Bytes)
    requires |before.image.events| + |rec| <= MAX_FILE
    requires middle.image == before.image.(events := before.image.events + rec)
    requires middle.events == iset{middle.image.events} && middle.idx == before.idx
    requires after.image.idx == before.image.idx + entry && IdxOnTheWay(middle, x, after)
    ensures WritesPass(before, rec, entry, x)
  {
  }

  lemma LoadNothing(events: Bytes, dim: u16)
    ensures Load(events, [], dim) == Ok([]) && MaxId([]) == 0
  {
  }

  /** A load that fails at one entry fails; one that gets past it goes on. */
  lemma LoadNext(events: Bytes, recs: seq<IdxRecord>, i: nat, dim: u16)
    requires i < |recs| && Load(events, recs[..i], dim).Ok?
    ensures match LoadOne(events, recs[i], dim)
            case Err(e) => Load(events, recs[..i + 1], dim) == Err(e) && Load(events, recs, dim) == Err(e)
            case Ok(ev) => Load(events, recs[..i + 1], dim) == Ok(Load(events, recs[..i], dim).value + [ev])
    ensures MaxId(recs[..i + 1]) == if recs[i].eventId > MaxId(recs[..i]) then recs[i].eventId else MaxId(recs[..i])
  {
    hide LoadOne;
    assert recs[..i + 1][..i] == recs[..i];
    if LoadOne(events, recs[i], dim).Err? {
      LoadStays(events, recs, i + 1, dim);
    }
  }

  lemma {:induction false} LoadStays(events: Bytes, recs: seq<IdxRecord>, i: nat, dim: u16)
    requires i <= |recs| && Load(events, recs[..i], dim).Err?
    ensures Load(events, recs, dim) == Load(events, recs[..i], dim)
  {
    hide LoadOne;
    if i == |recs| {
      assert recs[..i] == recs;
    } else {
      assert recs[..|recs| - 1][..i] == recs[..i];
      LoadStays(events, recs[..|recs| - 1], i, dim);
    }
  }

  /** `rest` is what `found` holds behind its first `added` entries, which cover `off` bytes. */
  predicate Remaining(found: Scan, added: nat, off: nat, rest: Scan) {
    && added <= |found.idx| == |found.events| && off <= found.clean
    && rest == Scan(found.events[added..], found.idx[added..], found.clean - off)
  }

  lemma StartScan(found: Scan, tail: FileBytes, dim: u16, covered: nat, h: MetaHeader)
    requires covered + |tail| <= MAX_FILE && found == ScanLog(tail, dim, covered)
    ensures Remaining(found, 0, 0, ScanLog(tail[0..], dim, covered + 0))
    ensures found.idx[..0] == [] && IdxFile([]) == [] && CountAll(h, []) == h
  {
    hide ScanLog;
    assert tail[0..] == tail;
    assert found.idx[0..] == found.idx && found.events[0..] == found.events;
  }

  /** One more record of the tail is the next entry found. */
  lemma ResumedStep(found: Scan, added: nat, off: nat, tail: FileBytes, dim: u16, covered: nat, h: MetaHeader)
    requires off <= |tail| && covered + |tail| <= MAX_FILE
    requires Remaining(found, added, off, ScanLog(tail[off..], dim, covered + off))
    requires DecodeEvent(tail[off..], dim).Ok?
    ensures var (ev, n) := DecodeEvent(tail[off..], dim).value;
            var rec := IdxRecord(ev.id, covered + off, n, ev.createdAt);
            && off + n <= |tail|
            && Remaining(found, added + 1, off + n, ScanLog(tail[off + n..], dim, covered + (off + n)))
            && IdxFile(found.idx[..added + 1]) == IdxFile(found.idx[..added]) + IdxBytes(rec)
            && CountAll(h, found.idx[..added + 1]) == CountIndexed(CountAll(h, found.idx[..added]), ev.id)
  {
    hide ScanLog, DecodeEvent, CountIndexed, IdxBytes, IdxFile;
    ScanUnfold(tail[off..], dim, covered + off);
    var (ev, n) := DecodeEvent(tail[off..], dim).value;
    var rest := ScanLog(tail[off + n..], dim, covered + off + n);
    assert tail[off..][n..] == tail[off + n..];
    RemainingStep(found, added, off, ev, n, covered + off, rest);
    var rec := found.idx[added];
    assert found.idx[..added + 1] == found.idx[..added] + [rec];
    assert found.idx[..added + 1][..added] == found.idx[..added];
    IdxFileConcat(found.idx[..added], [rec]);
    OneEntryFile(rec);
  }

  lemma OneEntryFile(rec: IdxRecord)
    ensures IdxFile([rec]) == IdxBytes(rec)
  {
    hide IdxBytes;
    assert IdxFile([rec][1..]) == [];
  }

  lemma RemainingStep(found: Scan, added: nat, off: nat, ev: Event, n: u32, at: u64, rest: Scan)
    requires Remaining(found, added, off, Join(One(ev, n, at), rest))
    ensures added < |found.idx| && found.idx[added] == IdxRecord(ev.id, at, n, ev.createdAt)
    ensures Remaining(found, added + 1, off + n, rest)
  {
    var one := One(ev, n, at);
    assert found.idx[added..][0] == one.idx[0];
    assert rest.events == (one.events + rest.events)[1..] == found.events[added + 1..];
    assert rest.idx == (one.idx + rest.idx)[1..] == found.idx[added + 1..];
  }

  /** Where decoding stops, everything that can be found has been found. */
  lemma AllFound(found: Scan, added: nat, off: nat, rest: FileBytes, dim: u16, at: nat)
    requires at + |rest| <= MAX_FILE && Remaining(found, added, off, ScanLog(rest, dim, at))
    requires DecodeEvent(rest, dim).Err? || rest == []
    ensures added == |found.idx| && off == found.clean && found.idx[..added] == found.idx
  {
    hide ScanLog, DecodeEvent;
    ScanUnfold(rest, dim, at);
    EmptyScan(dim, at);
  }

  lemma EncodedSize(ev: Event, dim: u16)
    requires Encoded(ev, dim).Ok?
    ensures Encodable(ev, dim) && Encoded(ev, dim).value == EventBytes(ev, dim)
    ensures |EventBytes(ev, dim)| < 0x1_0000_0000
  {
    RecordSizeBound(ev, dim);
    hide EventBytes;
  }

  /** Neither the checks nor the bytes of a record depend on where it is going to be stored. */
  lemma SameRecord(a: Event, b: Event, dim: u16)
    requires a.(fileOffset := 0) == b.(fileOffset := 0)
    ensures EncodeFailure(a, dim) == EncodeFailure(b, dim)
    ensures Encodable(a, dim) ==> EventBytes(a, dim) == EventBytes(b, dim)
  {
  }
}
