/** What no run of the store can break: lemmas about each operation and each crash, building up to
    the theorems about whole runs at the end of the file. */
module StoreSafety {
  import opened Prelude
  import opened Utf8
  import opened Format
  import opened EventLog
  import opened EventGraph
  import opened Recovery
  import opened StoreRuns

  // ── Opening ─────────────────────────────────────────────────────────────────

  /** Counting indexed records into a header touches only its counters, and keeps the last id a
      lower bound of the ids on disk. */
  lemma {:induction false} CountAllGood(h: MetaHeader, recs: seq<IdxRecord>, n: nat)
    requires GoodHeader(h, n) && forall i | 0 <= i < |recs| :: recs[i].eventId <= n
    ensures GoodHeader(CountAll(h, recs), n)
    ensures CountAll(h, recs).vectorDim == h.vectorDim
  {
    if recs == [] {
    } else {
      CountAllGood(h, recs[..|recs| - 1], n);
    }
  }

  lemma {:induction false} MaxIdSequential(recs: seq<IdxRecord>)
    requires forall i | 0 <= i < |recs| :: recs[i].eventId == i + 1
    ensures MaxId(recs) == |recs|
  {
    if recs == [] {
    } else {
      MaxIdSequential(recs[..|recs| - 1]);
    }
  }

  lemma DecodedIsDurable(b: Bytes, dim: u16)
    requires DecodeEvent(b, dim).Ok?
    ensures FaithfulTimes(DecodeEvent(b, dim).value.0)
  {
    hide ReadFixed, ReadRefs, ReadVector, DecodeUtf8;
  }

  /** What was read from disk would survive being written again. */
  lemma ScannedIsDurable(events: FileBytes, dim: u16)
    ensures DurableLog(ScanLog(events, dim, 0).events) == ScanLog(events, dim, 0).events
  {
    hide ScanLog, DecodeEvent;
    var s := ScanLog(events, dim, 0);
    forall i | 0 <= i < |s.events| ensures Durable(s.events[i]) == s.events[i] {
      ScanEntry(events, dim, 0, i);
      DecodedIsDurable(events[s.idx[i].fileOffset..End(s.idx[i])], dim);
      TimesSurvive(s.events[i]);
    }
  }

  lemma ScanIds(events: FileBytes, dim: u16)
    requires Sequential(ScanLog(events, dim, 0).events)
    ensures var s := ScanLog(events, dim, 0);
            && (forall i | 0 <= i < |s.idx| :: s.idx[i].eventId == i + 1)
            && MaxId(s.idx) == |s.events|
            && WrappingInc(|s.events|) == |s.events| + 1
  {
    hide ScanLog;
    var s := ScanLog(events, dim, 0);
    forall i | 0 <= i < |s.idx| ensures s.idx[i].eventId == i + 1 {
      ScanEntry(events, dim, 0, i);
    }
    MaxIdSequential(s.idx);
  }

  /** A consistent, aligned disk opens: the files end up clean and the session holds the whole log. */
  lemma OpenConsistent(img: Image, dim: u16, now: Time, h: MetaHeader)
    requires OpenHeader(img, dim, now) == Ok(h)
    requires Consistent(img.events, img.idx, h.vectorDim) && Aligned(img.idx)
    requires GoodHeader(h, |OnDisk(img, h.vectorDim)|)
    ensures var (img', r) := Open(img, dim, now);
            && img' == Image(OpenMeta(img, dim, now), Kept(img.events, h.vectorDim), FullIdx(img.events, h.vectorDim))
            && r.Ok? && r.value.log == OnDisk(img, h.vectorDim) == OnDisk(img', h.vectorDim)
            && r.value.header.vectorDim == h.vectorDim
            && GoodSession(img', r.value)
  {
    hide ScanLog, Load, ReadIdxFile, Repair, Sequential;
    var d := h.vectorDim;
    var s := ScanLog(img.events, d, 0);
    RepairConsistent(img.events, img.idx, d);
    RepairedIsClean(img.events, d);
    ScanTimes(img.events, d);
    ReadIdxOfScan(s.idx);
    ScanIds(img.events, d);
    CountAllGood(h, s.idx[|img.idx| / IDX_RECORD_SIZE..], |s.events|);
    ScannedIsDurable(img.events, d);
  }

  /** A torn index entry is never repaired: open reports it and leaves all files as they are. */
  lemma OpenMisaligned(img: Image, dim: u16, now: Time)
    requires img.meta.Some? && ReadMeta(img.meta.value).Ok? && !Aligned(img.idx)
    ensures Open(img, dim, now) == (img, Err(IdxMisaligned(|img.idx|)))
  {
  }

  lemma GoodImageOpens(img: Image, dim: u16, now: Time, d: u16)
    requires GoodImage(img, d) && Aligned(img.idx)
    ensures var (img', r) := Open(img, dim, now);
            && img' == Image(img.meta, Kept(img.events, d), FullIdx(img.events, d))
            && r.Ok? && r.value.log == OnDisk(img, d) == OnDisk(img', d)
            && r.value.header.vectorDim == d && GoodSession(img', r.value) && GoodImage(img', d)
  {
    hide ScanLog, Sequential, Open, GoodSession;
    OpenConsistent(img, dim, now, ReadMeta(img.meta.value).value);
    RepairedIsClean(img.events, d);
  }

  /** Bytes behind the last decodable record may be cut off in any place. */
  lemma CutKeepsScan(events: FileBytes, x: FileBytes, d: u16)
    requires Kept(events, d) <= x && x <= events
    ensures ScanLog(x, d, 0) == ScanLog(events, d, 0)
  {
    hide ScanLog;
    assert x == events[..|x|];
    ScanCut(events, d, 0, |x|);
  }

  lemma IndexGrows(idx: Bytes, longer: Bytes)
    requires idx <= longer
    ensures Indexed(idx) <= Indexed(longer) && Whole(idx) <= Whole(longer)
  {
  }

  /** What an open does to a good image, in full. */
  lemma GoodImageOpening(img: Image, dim: u16, now: Time, d: u16)
    requires GoodImage(img, d) && Aligned(img.idx)
    ensures var (img', r) := Open(img, dim, now);
            && img' == Image(img.meta, Kept(img.events, d), FullIdx(img.events, d))
            && r.Ok? && GoodSession(img', r.value) && GoodImage(img', d) && r.value.header.vectorDim == d
            && Indexed(img.idx) <= |ScanLog(img.events, d, 0).idx|
            && r.value.header ==
                 CountAll(ReadMeta(img.meta.value).value, ScanLog(img.events, d, 0).idx[Indexed(img.idx)..])
  {
    hide ScanLog, Sequential, GoodSession, ReadMeta, Consistent, Load, ReadIdxFile, CountAll;
    GoodImageOpens(img, dim, now, d);
    RepairConsistent(img.events, img.idx, d);
  }

  /** A medium that moved without touching a decodable record or an entry is as good as before. */
  lemma MediumMoves(m: Medium, m': Medium, d: u16)
    requires GoodMedium(m, d) && Sound(m') && m'.image.meta == m.image.meta
    requires ScanLog(m'.image.events, d, 0) == ScanLog(m.image.events, d, 0)
    requires forall x | x in m'.events :: x in m.events || ScanLog(x, d, 0) == ScanLog(m.image.events, d, 0)
    requires forall i | i in m'.idx ::
               i in m.idx || (Whole(i) <= FullIdx(m.image.events, d) && Indexed(m.image.idx) <= Indexed(i))
    ensures GoodMedium(m', d) && OnDisk(m'.image, d) == OnDisk(m.image, d)
    ensures forall n: nat | Secured(m, d, n) :: Secured(m', d, n)
    ensures NoneLost(m, d) ==> NoneLost(m', d)
  {
    hide ScanLog, Sequential, ReadMeta, Whole, Indexed;
    assert FullIdx(m'.image.events, d) == FullIdx(m.image.events, d);
    assert m.image.events in m.events && m.image.idx in m.idx;
    assert m'.image.events in m'.events && m'.image.idx in m'.idx;
  }

  lemma OpenedMedium(m: Medium, dim: u16, now: Time, d: u16)
    requires GoodMedium(m, d) && Aligned(m.image.idx)
    ensures var (m', r) := Opened(m, dim, now);
            && GoodMedium(m', d) && OnDisk(m'.image, d) == OnDisk(m.image, d)
            && (forall n: nat | Secured(m, d, n) :: Secured(m', d, n))
            && (NoneLost(m, d) ==> NoneLost(m', d))
  {
    hide ScanLog, Sequential, Open, GoodSession, ReadMeta, Consistent, CountAll;
    assert GoodImage(m.image, d) && Sound(m);
    GoodImageOpening(m.image, dim, now, d);
    hide GoodImage;
    var (m', r) := Opened(m, dim, now);
    CutKeepsScan(m.image.events, m'.image.events, d);
    assert Indexed(FullIdx(m.image.events, d)) == |ScanLog(m.image.events, d, 0).idx|;
    MediumMoves(m, m', d);
  }

  /** Opening a good medium: it succeeds, nothing in the log is lost, what was secured stays secured. */
  lemma OpenedGood(m: Medium, dim: u16, now: Time, d: u16)
    requires GoodMedium(m, d) && Aligned(m.image.idx)
    ensures var (m', r) := Opened(m, dim, now);
            && r.Ok? && GoodMedium(m', d) && LiveSession(m', r.value, d)
            && OnDisk(m'.image, d) == OnDisk(m.image, d)
            && (forall n: nat | Secured(m, d, n) :: Secured(m', d, n))
            && (NoneLost(m, d) ==> NoneLost(m', d))
  {
    hide ScanLog, Sequential, Open, GoodSession, ReadMeta, Consistent, CountAll, Secured, NoneLost;
    OpenedMedium(m, dim, now, d);
    assert GoodImage(m.image, d);
    GoodImageOpening(m.image, dim, now, d);
    OpenedCounts(m, dim, now, d);
  }

  /** The header of a fresh session counts only what the index has for good. */
  lemma OpenedCounts(m: Medium, dim: u16, now: Time, d: u16)
    requires GoodMedium(m, d) && Aligned(m.image.idx)
    ensures var (m', r) := Opened(m, dim, now);
            r.Ok? && forall i | i in m'.idx :: r.value.header.lastEventId <= Indexed(i)
  {
    hide ScanLog, Sequential, Open, ReadMeta, Consistent, CountAll;
    assert GoodImage(m.image, d);
    GoodImageOpening(m.image, dim, now, d);
    hide GoodImage;
    var (m', r) := Opened(m, dim, now);
    var s := ScanLog(m.image.events, d, 0);
    assert Indexed(FullIdx(m.image.events, d)) == |s.idx|;
    if m'.image.idx == m.image.idx {
      assert s.idx[Indexed(m.image.idx)..] == [];
      assert r.value.header == ReadMeta(m.image.meta.value).value by { CountNothing(ReadMeta(m.image.meta.value).value); }
    } else {
      SessionLog(m'.image, r.value);
      CutKeepsScan(m.image.events, m'.image.events, d);
      assert r.value.header.lastEventId <= |s.idx| by { SessionHeader(m'.image, r.value); }
    }
  }

  lemma DurableLogLen(log: seq<Event>)
    ensures |DurableLog(log)| == |log|
  {
  }

  lemma CountNothing(h: MetaHeader)
    ensures CountAll(h, []) == h
  {
  }

  lemma SessionHeader(img: Image, s: Session)
    requires GoodSession(img, s)
    ensures s.header.lastEventId <= |OnDisk(img, s.header.vectorDim)|
  {
    hide ScanLog, Clean;
    DurableLogLen(s.log);
  }

  lemma SessionLog(img: Image, s: Session)
    requires GoodSession(img, s)
    ensures |s.log| == |OnDisk(img, s.header.vectorDim)| && s.nextId == |s.log| + 1
  {
    hide ScanLog, Clean;
    DurableLogLen(s.log);
  }

  /** A death inside an open leaves a good medium with the same log. */
  lemma OpenLeavesGood(m: Medium, dim: u16, now: Time, left: Medium, d: u16)
    requires GoodMedium(m, d) && OpenLeaves(m, dim, now, left)
    ensures GoodMedium(left, d) && OnDisk(left.image, d) == OnDisk(m.image, d)
    ensures forall n: nat | Secured(m, d, n) :: Secured(left, d, n)
    ensures NoneLost(m, d) ==> NoneLost(left, d)
  {
    hide ScanLog, Repair, Sequential, ReadMeta;
    assert GoodImage(m.image, d) && Sound(m);
    if RepairLeaves(m, dim, now, left) {
      RepairConsistent(m.image.events, m.image.idx, d);
      hide GoodImage, Consistent;
      RepairPassesGood(m, left, d);
    }
  }

  lemma RepairPassesGood(m: Medium, left: Medium, d: u16)
    requires GoodMedium(m, d) && Sound(left) && left.image.meta == m.image.meta
    requires Kept(m.image.events, d) <= left.image.events <= m.image.events
    requires m.image.idx <= left.image.idx <= FullIdx(m.image.events, d)
    requires left.events <= m.events + EventSpan(Kept(m.image.events, d), m.image.events)
    requires left.idx <= m.idx + Span(m.image.idx, left.image.idx)
    ensures GoodMedium(left, d) && OnDisk(left.image, d) == OnDisk(m.image, d)
    ensures forall n: nat | Secured(m, d, n) :: Secured(left, d, n)
    ensures NoneLost(m, d) ==> NoneLost(left, d)
  {
    hide ScanLog, Sequential, ReadMeta, GoodImage, Whole, Indexed, Secured, NoneLost, GoodMedium;
    CutKeepsScan(m.image.events, left.image.events, d);
    forall x | x in left.events ensures x in m.events || ScanLog(x, d, 0) == ScanLog(m.image.events, d, 0) {
      if x !in m.events { CutKeepsScan(m.image.events, x, d); }
    }
    forall i | i in left.idx
      ensures i in m.idx || (Whole(i) <= FullIdx(m.image.events, d) && Indexed(m.image.idx) <= Indexed(i))
    {
      if i !in m.idx {
        IndexGrows(m.image.idx, i);
        IndexGrows(i, FullIdx(m.image.events, d));
      }
    }
    MediumMoves(m, left, d);
  }

  /** Repair is restartable: after a death anywhere inside an open that left whole index entries, the
      next open ends with the same files and the same log. */
  lemma RepairRestartable(m: Medium, dim: u16, now: Time, left: Medium, d: u16, dim': u16, now': Time)
    requires GoodMedium(m, d) && Aligned(m.image.idx) && OpenLeaves(m, dim, now, left) && Aligned(left.image.idx)
    ensures Open(left.image, dim', now').0 == Open(m.image, dim, now).0
    ensures Open(left.image, dim', now').1.Ok? && Open(m.image, dim, now).1.Ok?
    ensures Open(left.image, dim', now').1.value.log == Open(m.image, dim, now).1.value.log
  {
    hide ScanLog, Repair, Sequential, ReadMeta, Open, Consistent, OpenLeaves;
    OpenLeavesGood(m, dim, now, left, d);
    assert GoodImage(m.image, d) && GoodImage(left.image, d);
    GoodImageOpens(m.image, dim, now, d);
    GoodImageOpens(left.image, dim', now', d);
    SameKept(m, dim, now, left, d);
  }

  lemma SameKept(m: Medium, dim: u16, now: Time, left: Medium, d: u16)
    requires GoodMedium(m, d) && Aligned(m.image.idx) && OpenLeaves(m, dim, now, left)
    ensures left.image.meta == m.image.meta
    ensures Kept(left.image.events, d) == Kept(m.image.events, d)
    ensures FullIdx(left.image.events, d) == FullIdx(m.image.events, d)
  {
    hide ScanLog, Repair, Sequential, ReadMeta;
    assert GoodImage(m.image, d);
    RepairConsistent(m.image.events, m.image.idx, d);
    CutKeepsScan(m.image.events, left.image.events, d);
  }

  lemma FreshImageGood(dim: u16, now: Time)
    ensures GoodImage(Image(Some(MetaBytes(FreshHeader(dim, now))), [], []), dim)
    ensures OnDisk(Image(None, [], []), dim) == []
    ensures Consistent([], [], dim) && Kept([], dim) == [] && FullIdx([], dim) == []
  {
    DecodeMetaBytes(FreshHeader(dim, now));
    hide MetaBytes, DecodeMeta;
    EmptyScan(dim, 0);
  }

  /** Opening a directory that never held a store. */
  lemma FreshOpens(dim: u16, now: Time)
    ensures var (img', r) := Open(Image(None, [], []), dim, now);
            && img' == Image(Some(MetaBytes(FreshHeader(dim, now))), [], [])
            && r.Ok? && r.value.log == [] && r.value.header.vectorDim == dim
            && GoodSession(img', r.value) && GoodImage(img', dim)
  {
    FreshImageGood(dim, now);
    hide ScanLog, Sequential, Open, GoodSession, MetaBytes, Consistent;
    OpenConsistent(Image(None, [], []), dim, now, FreshHeader(dim, now));
  }

  lemma FreshOpenLeaves(dim: u16, now: Time, left: Medium)
    requires OpenLeaves(Settled(Image(None, [], [])), dim, now, left)
    ensures left == Settled(Image(None, [], [])) || left == Settled(Image(Some(MetaBytes(FreshHeader(dim, now))), [], []))
  {
    FreshImageGood(dim, now);
    hide ScanLog, Sequential, MetaBytes, Repair;
    RepairConsistent([], [], dim);
  }

  lemma FreshMediumGood(dim: u16, now: Time)
    ensures var m := Settled(Image(Some(MetaBytes(FreshHeader(dim, now))), [], []));
            GoodMedium(m, dim) && OnDisk(m.image, dim) == [] && NoneLost(m, dim)
  {
    DecodeMetaBytes(FreshHeader(dim, now));
    FreshImageGood(dim, now);
    hide MetaBytes, DecodeMeta;
    EmptyScan(dim, 0);
  }

  // ── Appending ───────────────────────────────────────────────────────────────

  /** A record appended to a completely decodable file adds exactly its event and its entry. */
  lemma ScanAppended(events: FileBytes, p: Event, dim: u16)
    requires Encodable(p, dim) && p.fileOffset == |events| && |events| + EventRecordSize(p, dim) <= MAX_FILE
    requires ScanLog(events, dim, 0).clean == |events|
    ensures var s, s' := ScanLog(events, dim, 0), ScanLog(events + EventBytes(p, dim), dim, 0);
            && s'.events == s.events + [Durable(p)]
            && s'.clean == |events| + EventRecordSize(p, dim)
            && s.idx <= s'.idx
            && IdxFile(s'.idx) == IdxFile(s.idx) + IdxBytes(EntryOf(p, EventRecordSize(p, dim)))
  {
    hide ScanLog, EventBytes, IdxFile, IdxBytes;
    var n := EventRecordSize(p, dim);
    ScanConcat(events, EventBytes(p, dim), dim, 0);
    ScanRecord(p, dim, |events|);
    var s, one := ScanLog(events, dim, 0), One(Durable(p), n, |events|);
    assert Durable(p).(fileOffset := |events|) == Durable(p);
    IdxFileConcat(s.idx, one.idx);
    SameEntry(p, n);
  }

  lemma SameEntry(p: Event, n: u32)
    ensures IdxFile([IdxRecord(p.id, p.fileOffset, n, Durable(p).createdAt)]) == IdxBytes(EntryOf(p, n))
  {
  }

  /** A proper part of a record at the end of the file is invisible to the scan. */
  lemma ScanTorn(events: FileBytes, p: Event, dim: u16, k: nat)
    requires Encodable(p, dim) && k < |EventBytes(p, dim)| && |events| + k <= MAX_FILE
    requires ScanLog(events, dim, 0).clean == |events|
    ensures ScanLog(events + EventBytes(p, dim)[..k], dim, 0) == ScanLog(events, dim, 0)
  {
    hide ScanLog, EventBytes, Encodable;
    var torn := EventBytes(p, dim)[..k];
    TornAlone(p, dim, k, |events|);
    ScanConcat(events, torn, dim, 0);
    JoinEmpty(ScanLog(events, dim, 0));
  }

  lemma TornAlone(p: Event, dim: u16, k: nat, at: nat)
    requires Encodable(p, dim) && k < |EventBytes(p, dim)| && at + k <= MAX_FILE
    ensures ScanLog(EventBytes(p, dim)[..k], dim, at) == Scan([], [], 0)
  {
    hide ScanLog, EventBytes, DecodeEvent, Encodable;
    ProperPrefixRejected(p, dim, k);
    ScanUnfold(EventBytes(p, dim)[..k], dim, at);
  }

  lemma SequentialSnoc(log: seq<Event>, ev: Event)
    requires Sequential(log) && ev.id == |log| + 1
    ensures Sequential(log + [ev])
  {
  }

  lemma CleanIsCovered(events: FileBytes, idx: Bytes, dim: u16)
    requires Clean(events, idx, dim)
    ensures ScanLog(events, dim, 0).clean == |events|
  {
    hide ScanLog;
    assert |Kept(events, dim)| == ScanLog(events, dim, 0).clean;
  }

  lemma DurableLogSnoc(log: seq<Event>, p: Event)
    ensures DurableLog(log + [p]) == DurableLog(log) + [Durable(p)]
  {
    hide Durable;
  }

  /** What an append writes is what its caller sent: only the id, a missing creation time, the hints of the
      refs and the place are filled in. `earlier` is the log on disk, whose events stand where those in
      memory do. */
  lemma PreparedCompletes(s: Session, ev: Event, now: Time, offset: u64, earlier: seq<Event>)
    requires Sequential(earlier) && s.nextId == |s.log| + 1 && DurableLog(s.log) == earlier
    ensures Completes(Prepare(ev, s, now, offset), ev, now, earlier)
  {
    hide Build, Durable;
    var p, byId := Prepare(ev, s, now, offset), Build(s.log).byId;
    DurableLogLen(s.log);
    LiveIsSequential(s.log);
    ByIdMeaning(s.log);
    forall i | 0 <= i < |ev.refs| ensures RefCompletes(p.refs[i], ev.refs[i], earlier) {
      var r := ev.refs[i];
      if 1 <= r.targetEventId <= |earlier| {
        var target := s.log[r.targetEventId - 1];
        assert target.id == r.targetEventId && byId[r.targetEventId] == target;
        DurableId(target);
      }
    }
  }

  /** The same for an append to a good store. */
  lemma StoredCompletes(img: Image, s: Session, ev: Event, now: Time)
    requires GoodSession(img, s) && Append(img, s, ev, now).Stored?
    ensures Completes(Append(img, s, ev, now).event, ev, now, OnDisk(img, s.header.vectorDim))
  {
    hide ScanLog, Build, Durable, Completes, Prepare;
    SessionLog(img, s);
    PreparedCompletes(s, ev, now, |img.events|, OnDisk(img, s.header.vectorDim));
  }

  /** A completed append extends the log by its event and leaves everything clean. */
  lemma AppendGood(img: Image, s: Session, ev: Event, now: Time)
    requires GoodSession(img, s) && GoodImage(img, s.header.vectorDim)
    requires Append(img, s, ev, now).Stored?
    ensures var Stored(img', s', p) := Append(img, s, ev, now); var d := s.header.vectorDim;
            && p.id == |s.log| + 1 && s'.header.vectorDim == d
            && OnDisk(img', d) == OnDisk(img, d) + [Durable(p)]
            && GoodSession(img', s') && GoodImage(img', d)
  {
    hide ScanLog, EventBytes, IdxFile, IdxBytes, Sequential, DurableLog, Build, ReadMeta, Durable;
    var Stored(img', s', p) := Append(img, s, ev, now);
    var d := s.header.vectorDim;
    DurableLogLen(s.log);
    CleanIsCovered(img.events, img.idx, d);
    ScanAppended(img.events, p, d);
    FileBound(img'.events, d);
    DurableId(p);
    SequentialSnoc(OnDisk(img, d), Durable(p));
    DurableLogSnoc(s.log, p);
    assert img'.events == img'.events[..|img'.events|];
  }

  lemma DurableId(p: Event)
    ensures Durable(p).id == p.id && Durable(p).fileOffset == p.fileOffset
  {
  }

  lemma FileBound(events: FileBytes, dim: u16)
    ensures |ScanLog(events, dim, 0).events| + 1 < MAX_FILE
  {
    hide ScanLog;
  }

  /** The log after a death inside an append: as before, or longer by exactly that event. */
  lemma AppendLeavesLog(img: Image, s: Session, p: Event, left: FileBytes)
    requires GoodSession(img, s) && GoodImage(img, s.header.vectorDim)
    requires p.id == |s.log| + 1 && p.fileOffset == |img.events| && Encodable(p, s.header.vectorDim)
    requires img.events <= left <= img.events + EventBytes(p, s.header.vectorDim)
    ensures var d := s.header.vectorDim; var rec := EventBytes(p, d);
            if left == img.events + rec then
              && ScanLog(left, d, 0).events == OnDisk(img, d) + [Durable(p)]
              && IdxFile(ScanLog(left, d, 0).idx) == FullIdx(img.events, d) + IdxBytes(EntryOf(p, |rec|))
              && ScanLog(img.events, d, 0).idx <= ScanLog(left, d, 0).idx
              && Sequential(ScanLog(left, d, 0).events)
            else ScanLog(left, d, 0) == ScanLog(img.events, d, 0)
  {
    hide ScanLog, EventBytes, IdxFile, IdxBytes, Sequential, DurableLog, ReadMeta, Durable;
    var d := s.header.vectorDim;
    var rec := EventBytes(p, d);
    DurableLogLen(s.log);
    CleanIsCovered(img.events, img.idx, d);
    if left == img.events + rec {
      ScanAppended(img.events, p, d);
      DurableId(p);
      SequentialSnoc(OnDisk(img, d), Durable(p));
    } else {
      var k := |left| - |img.events|;
      assert left == img.events + rec[..k];
      ScanTorn(img.events, p, d, k);
    }
  }

  /** What the files may fall back to after a death inside an append is behind what they hold. */
  lemma AppendedBehind(m: Medium, s: Session, p: Event, left: FileBytes, x: FileBytes)
    requires GoodMedium(m, s.header.vectorDim) && GoodSession(m.image, s)
    requires p.id == |s.log| + 1 && p.fileOffset == |m.image.events| && Encodable(p, s.header.vectorDim)
    requires m.image.events <= left <= m.image.events + EventBytes(p, s.header.vectorDim)
    requires x in m.events || m.image.events <= x <= left
    ensures Behind(x, left, s.header.vectorDim)
    ensures x in m.events ||
            |ScanLog(m.image.events, s.header.vectorDim, 0).idx| <= |ScanLog(x, s.header.vectorDim, 0).idx|
  {
    hide ScanLog, EventBytes, IdxFile, IdxBytes, Sequential, ReadMeta, Durable, GoodSession;
    var d := s.header.vectorDim;
    assert GoodImage(m.image, d);
    AppendLeavesLog(m.image, s, p, left);
    if x in m.events {
      assert Behind(x, m.image.events, d);
    } else {
      AppendLeavesLog(m.image, s, p, x);
    }
  }

  /** A death inside an append leaves a good medium: the log as before, or longer by exactly that event. */
  lemma AppendLeavesGood(m: Medium, s: Session, p: Event, left: Medium)
    requires GoodMedium(m, s.header.vectorDim) && LiveSession(m, s, s.header.vectorDim)
    requires p.id == |s.log| + 1 && p.fileOffset == |m.image.events| && Encodable(p, s.header.vectorDim)
    requires AppendLeaves(m, s, p, left)
    ensures var d := s.header.vectorDim;
            && GoodMedium(left, d)
            && (OnDisk(left.image, d) == OnDisk(m.image, d) || OnDisk(left.image, d) == OnDisk(m.image, d) + [Durable(p)])
            && (forall n: nat | Secured(m, d, n) :: Secured(left, d, n))
  {
    hide ScanLog, EventBytes, IdxFile, IdxBytes, Sequential, ReadMeta, Durable, Whole, Indexed, Behind, Clean;
    var d := s.header.vectorDim;
    assert GoodImage(m.image, d) && m.image.events in m.events && m.image.idx in m.idx;
    AppendLeavesLog(m.image, s, p, left.image.events);
    forall x | x in left.events
      ensures Behind(x, left.image.events, d)
      ensures x in m.events || |ScanLog(m.image.events, d, 0).idx| <= |ScanLog(x, d, 0).idx|
    {
      AppendedBehind(m, s, p, left.image.events, x);
    }
    AppendedIndex(m, s, p, left);
    assert left.image.idx in left.idx;
  }

  lemma AppendedIndex(m: Medium, s: Session, p: Event, left: Medium)
    requires GoodMedium(m, s.header.vectorDim) && LiveSession(m, s, s.header.vectorDim)
    requires p.id == |s.log| + 1 && p.fileOffset == |m.image.events| && Encodable(p, s.header.vectorDim)
    requires AppendLeaves(m, s, p, left)
    ensures forall i | i in left.idx ::
              && Whole(i) <= FullIdx(left.image.events, s.header.vectorDim)
              && (i in m.idx || Indexed(m.image.idx) <= Indexed(i))
  {
    hide ScanLog, EventBytes, IdxFile, IdxBytes, Sequential, ReadMeta, Durable, Whole, Indexed, Behind, Sequential;
    var d := s.header.vectorDim;
    assert GoodImage(m.image, d);
    AppendLeavesLog(m.image, s, p, left.image.events);
    var full := FullIdx(left.image.events, d);
    assert FullIdx(m.image.events, d) <= full;
    assert m.image.idx == FullIdx(m.image.events, d);
    forall i | i in left.idx ensures Whole(i) <= full && (i in m.idx || Indexed(m.image.idx) <= Indexed(i)) {
      if i !in m.idx {
        assert OnTheWay(m.image.idx, i, left.image.idx);
        IndexGrows(m.image.idx, i);
        assert i <= full;
        WholeIsPart(i);
      }
    }
  }

  lemma WholeIsPart(i: Bytes)
    ensures Whole(i) <= i
  {
  }

  // ── Snapshots ───────────────────────────────────────────────────────────────

  /** A snapshot rewrites only the header, and the new header is as good as the old one. */
  lemma SnapshotGood(img: Image, s: Session, now: Time)
    requires GoodSession(img, s) && GoodImage(img, s.header.vectorDim)
    ensures var h := SnapshotHeader(s, now); var img' := img.(meta := Some(MetaBytes(h)));
            && GoodImage(img', s.header.vectorDim) && OnDisk(img', s.header.vectorDim) == OnDisk(img, s.header.vectorDim)
            && GoodSession(img', s.(header := h)) && h.vectorDim == s.header.vectorDim
  {
    hide ScanLog, Sequential, DurableLog, Build, MetaBytes, DecodeMeta, Consistent, Clean;
    DurableLogLen(s.log);
    DecodeMetaBytes(SnapshotHeader(s, now));
  }

  lemma SnapshotKeepsMedium(m: Medium, s: Session, now: Time)
    requires GoodMedium(m, s.header.vectorDim) && LiveSession(m, s, s.header.vectorDim)
    ensures var h := SnapshotHeader(s, now); var m' := WithMeta(m, MetaBytes(h)); var d := s.header.vectorDim;
            && GoodMedium(m', d) && LiveSession(m', s.(header := h), d) && OnDisk(m'.image, d) == OnDisk(m.image, d)
            && (forall n: nat | Secured(m, d, n) :: Secured(m', d, n)) && (NoneLost(m, d) ==> NoneLost(m', d))
  {
    hide ScanLog, Sequential, DurableLog, Build, MetaBytes, DecodeMeta, Consistent, Clean, Whole, Indexed, GoodSession;
    assert GoodImage(m.image, s.header.vectorDim);
    SnapshotGood(m.image, s, now);
    DecodeMetaBytes(SnapshotHeader(s, now));
    hide GoodImage;
    assert ReadMeta(MetaBytes(SnapshotHeader(s, now))).value.lastEventId == s.header.lastEventId;
  }

  // ── Histories ───────────────────────────────────────────────────────────────

  /** What a log holds, every log with the same beginning holds. */
  lemma HoldsInBoth(log: seq<Event>, other: seq<Event>, id: u64, a: Submission)
    requires Holds(log, id, a) && id <= |other| && (log <= other || other <= log)
    ensures Holds(other, id, a)
  {
    hide Durable, Completes;
    assert log[..id - 1] == other[..id - 1] && log[id - 1] == other[id - 1];
  }

  lemma BegunInBoth(log: seq<Event>, other: seq<Event>, i: nat, begun: set<Submission>, a: Submission)
    requires WasBegun(log, i, begun) && i < |other| && (log <= other || other <= log)
    ensures WasBegun(other, i, begun + {a})
  {
    hide Holds;
    var b :| b in begun && Holds(log, i + 1, b);
    HoldsInBoth(log, other, i + 1, b);
    assert b in begun + {a};
  }

  lemma HoldsLast(log: seq<Event>, a: Submission)
    requires Completes(a.stored, a.sent, a.now, log)
    ensures Holds(log + [Durable(a.stored)], a.stored.id, a) && a.stored.id == |log| + 1
  {
    hide Durable;
    assert (log + [Durable(a.stored)])[..|log|] == log;
  }

  lemma HistoryAcked(log: seq<Event>, acked: map<u64, Submission>, begun: set<Submission>, cutAppends: nat,
                     a: Submission)
    requires GoodHistory(log, acked, begun, cutAppends) && Completes(a.stored, a.sent, a.now, log)
    requires |log| + 1 < MAX_FILE
    ensures GoodHistory(log + [Durable(a.stored)], acked[a.stored.id := a], begun + {a}, cutAppends)
  {
    hide Durable, Completes;
    var log', acked' := log + [Durable(a.stored)], acked[a.stored.id := a];
    HoldsLast(log, a);
    assert a.stored.id !in acked;
    assert |acked'| == |acked| + 1;
    forall id | id in acked ensures Holds(log', id, acked[id]) {
      HoldsInBoth(log, log', id, acked[id]);
    }
    forall i | 0 <= i < |log'| ensures WasBegun(log', i, begun + {a}) {
      if i < |log| {
        BegunInBoth(log, log', i, begun, a);
      } else {
        assert a in begun + {a};
      }
    }
  }

  lemma HistoryCrashed(log: seq<Event>, log': seq<Event>, acked: map<u64, Submission>, begun: set<Submission>,
                       cutAppends: nat, a: Submission)
    requires GoodHistory(log, acked, begun, cutAppends) && Completes(a.stored, a.sent, a.now, log)
    requires |log| + 1 < MAX_FILE && (log' == log || log' == log + [Durable(a.stored)])
    ensures GoodHistory(log', acked, begun + {a}, cutAppends + 1)
  {
    hide Durable, Completes, Holds, WasBegun;
    if log' == log {
      forall i | 0 <= i < |log| ensures WasBegun(log, i, begun + {a}) {
        BegunInBoth(log, log, i, begun, a);
      }
    } else {
      HistoryAcked(log, acked, begun, cutAppends, a);
      forall id | id in acked ensures Holds(log', id, acked[id]) {
        HoldsBound(log, id, acked[id]);
        HoldsInBoth(log, log', id, acked[id]);
      }
    }
  }

  lemma HoldsBound(log: seq<Event>, id: u64, a: Submission)
    requires Holds(log, id, a)
    ensures 1 <= id <= |log|
  {
  }

  /** A shorter log that still holds everything acknowledged has as good a history. */
  lemma HistoryShorter(log: seq<Event>, shorter: seq<Event>, acked: map<u64, Submission>, begun: set<Submission>,
                       cutAppends: nat)
    requires GoodHistory(log, acked, begun, cutAppends) && shorter <= log
    requires forall id | id in acked :: id <= |shorter|
    ensures GoodHistory(shorter, acked, begun, cutAppends)
  {
    hide Holds, WasBegun;
    forall id | id in acked ensures Holds(shorter, id, acked[id]) {
      HoldsInBoth(log, shorter, id, acked[id]);
    }
    forall i | 0 <= i < |shorter| ensures WasBegun(shorter, i, begun) {
      BegunStays(log, shorter, i, begun);
    }
  }

  lemma BegunStays(log: seq<Event>, shorter: seq<Event>, i: nat, begun: set<Submission>)
    requires WasBegun(log, i, begun) && i < |shorter| && shorter <= log
    ensures WasBegun(shorter, i, begun)
  {
    hide Holds;
    var b :| b in begun && Holds(log, i + 1, b);
    HoldsInBoth(log, shorter, i + 1, b);
  }

  // ── Power loss ──────────────────────────────────────────────────────────────

  lemma SequentialPrefix(log: seq<Event>, shorter: seq<Event>)
    requires Sequential(log) && shorter <= log
    ensures Sequential(shorter)
  {
  }

  /** An index that is not ahead of the records left is an initial part of their index. */
  lemma IndexFits(events: FileBytes, left: FileBytes, idx: Bytes, d: u16)
    requires Behind(left, events, d) && Whole(idx) <= FullIdx(events, d)
    requires Indexed(idx) <= |ScanLog(left, d, 0).idx|
    ensures Whole(idx) <= FullIdx(left, d)
  {
    hide ScanLog, IdxFile;
    var short, long := ScanLog(left, d, 0).idx, ScanLog(events, d, 0).idx;
    assert long == short + long[|short|..];
    IdxFileConcat(short, long[|short|..]);
    assert FullIdx(left, d) <= FullIdx(events, d);
  }

  /** A power loss that strands nothing leaves a good store. */
  lemma PowerLossKeeps(w: World, image: Image, w': World, d: u16)
    requires LiveAt(w, d) && !w.stranded && Next(w, PowerLoss(image), w') && !Strands(image)
    ensures LiveAt(w', d)
  {
    hide ScanLog, Durable, Sequential, Whole, Indexed, GoodHistory, LiveSession;
    var m, e := w.medium, w.medium.image.events;
    assert GoodImage(m.image, d) && Behind(image.events, e, d) && Whole(image.idx) <= FullIdx(e, d);
    SequentialPrefix(OnDisk(m.image, d), OnDisk(image, d));
    IndexFits(e, image.events, image.idx, d);
    forall id | id in w.acked ensures id <= |OnDisk(image, d)| && Secured(Settled(image), d, id) {
      assert Secured(m, d, id);
    }
    HistoryShorter(OnDisk(m.image, d), OnDisk(image, d), w.acked, w.begun, w.cutAppends);
  }

  /** The first entry that no record is left for points where nothing decodes. */
  lemma StrandedEntry(events: FileBytes, left: FileBytes, idx: Bytes, d: u16)
    requires Behind(left, events, d) && Whole(idx) <= FullIdx(events, d)
    requires |ScanLog(left, d, 0).idx| < Indexed(idx)
    ensures DeadEntry(left, idx, d, |ScanLog(left, d, 0).idx|)
  {
    hide ScanLog, IdxFile, DecodeEvent, IdxSlot;
    var s, k := ScanLog(events, d, 0), |ScanLog(left, d, 0).idx|;
    var rec := s.idx[k];
    SlotOfFull(events, idx, d, k);
    ScanEntry(events, d, 0, k);
    EntryFollows(events, left, d);
    ScanStops(left, d, 0);
    var at := ScanLog(left, d, 0).clean;
    if End(rec) <= |left| {
      var range, behind := left[at..End(rec)], left[at..];
      assert behind == range + left[End(rec)..];
      if DecodeEvent(range, d).Ok? { DecodeExtends(range, d, left[End(rec)..]); }
    }
  }

  /** Entry `k` of an initial part of the full index is entry `k` of the scan. */
  lemma SlotOfFull(events: FileBytes, idx: Bytes, d: u16, k: nat)
    requires Whole(idx) <= FullIdx(events, d) && k < Indexed(idx)
    ensures k < |ScanLog(events, d, 0).idx| && IdxSlot(idx, k) == ScanLog(events, d, 0).idx[k]
  {
    hide ScanLog, IdxFile, DecodeIdx, IdxBytes;
    var recs := ScanLog(events, d, 0).idx;
    ScanTimes(events, d);
    IdxFileAt(recs, k);
    var from, to := k * IDX_RECORD_SIZE, (k + 1) * IDX_RECORD_SIZE;
    assert idx[from..to] == Whole(idx)[from..to] == IdxFile(recs)[from..to];
    DecodeIdxBytes(recs[k], []);
    assert IdxBytes(recs[k]) + [] == IdxBytes(recs[k]);
  }

  /** The entry behind those of a shorter log starts where that log ends. */
  lemma EntryFollows(events: FileBytes, left: FileBytes, d: u16)
    requires Behind(left, events, d) && |ScanLog(left, d, 0).idx| < |ScanLog(events, d, 0).idx|
    ensures ScanLog(events, d, 0).idx[|ScanLog(left, d, 0).idx|].fileOffset == ScanLog(left, d, 0).clean
  {
    hide ScanLog;
    var short, long := ScanLog(left, d, 0), ScanLog(events, d, 0);
    ScanTiles(left, d, 0);
    ScanTiles(events, d, 0);
    TileBorder(long.idx, short.idx, 0, long.clean, short.clean);
  }

  lemma {:induction false} TileBorder(long: seq<IdxRecord>, short: seq<IdxRecord>, from: nat, to: nat, border: nat)
    requires Tiles(long, from, to) && Tiles(short, from, border) && short <= long && |short| < |long|
    ensures long[|short|].fileOffset == border
  {
    if short == [] {
      assert from == border;
    } else {
      TileBorder(long[1..], short[1..], End(short[0]), to, border);
    }
  }

  lemma DeadStays(events: FileBytes, idx: Bytes, d: u16, k: nat, events': FileBytes, idx': Bytes)
    requires DeadEntry(events, idx, d, k) && events' <= events && idx <= idx'
    ensures DeadEntry(events', idx', d, k)
  {
    hide DecodeEvent, DecodeIdx;
    var from, to := k * IDX_RECORD_SIZE, (k + 1) * IDX_RECORD_SIZE;
    assert idx'[from..to] == idx[from..to];
    var rec := IdxSlot(idx, k);
    assert IdxSlot(idx', k) == rec;
    if End(rec) <= |events'| {
      assert events'[rec.fileOffset..End(rec)] == events[rec.fileOffset..End(rec)];
    }
  }

  lemma {:induction false} DeadLoad(events: FileBytes, recs: seq<IdxRecord>, d: u16, k: nat)
    requires k < |recs| && LoadOne(events, recs[k], d).Err?
    ensures Load(events, recs, d).Err?
  {
    hide LoadOne;
    if k >= |recs| - 1 {
    } else {
      assert recs[..|recs| - 1][k] == recs[k];
      DeadLoad(events, recs[..|recs| - 1], d, k);
    }
  }

  /** With a dead entry no open ever succeeds, and none revives the entry. */
  lemma StrandedOpen(m: Medium, dim: u16, now: Time, d: u16, events: FileBytes, idx: Bytes, k: nat)
    requires StrandedBy(m, d, events, idx, k)
    ensures Opened(m, dim, now).1.Err? && StrandedBy(Opened(m, dim, now).0, d, events, idx, k)
  {
    hide ReadMeta, Load, LoadOne, DeadEntry, ReadIdxFile, Repair;
    if Aligned(m.image.idx) && Repair(m.image.events, m.image.idx, d).Ok? {
      var r := Repair(m.image.events, m.image.idx, d).value;
      assert m.image.events in m.events && m.image.idx in m.idx;
      DeadStays(events, idx, d, k, r.events, r.idx);
      DeadFile(r.events, r.idx, d, k);
    }
  }

  lemma DeadFile(events: FileBytes, idx: Bytes, d: u16, k: nat)
    requires DeadEntry(events, idx, d, k) && Aligned(idx)
    ensures Load(events, ReadIdxFile(idx), d).Err?
  {
    hide LoadOne, Load, IdxSlot;
    assert ReadIdxFile(idx)[k] == IdxSlot(idx, k);
    DeadLoad(events, ReadIdxFile(idx), d, k);
  }

  lemma StrandedOpenLeaves(m: Medium, dim: u16, now: Time, left: Medium, d: u16, events: FileBytes, idx: Bytes, k: nat)
    requires StrandedBy(m, d, events, idx, k) && OpenLeaves(m, dim, now, left)
    ensures StrandedBy(left, d, events, idx, k)
  {
    hide ReadMeta, DeadEntry, Repair;
    assert m.image.events in m.events && m.image.idx in m.idx;
  }
  /** As long as no process died inside an append, no power loss strands anything. */
  lemma NoneLostNoneStranded(m: Medium, d: u16, image: Image)
    requires GoodMedium(m, d) && NoneLost(m, d) && Survives(m, image)
    ensures !Strands(image)
  {
    hide ScanLog, ReadMeta;
    assert Whole(image.idx) <= FullIdx(m.image.events, d);
    assert |ScanLog(image.events, d, 0).idx| == |ScanLog(m.image.events, d, 0).idx|;
    assert GoodImage(m.image, d);
  }

  lemma PowerLossStrands(w: World, image: Image, w': World, d: u16)
    requires LiveAt(w, d) && Next(w, PowerLoss(image), w') && Strands(image)
    ensures w'.stranded && StrandedAt(w', d)
  {
    hide ScanLog, Durable, Sequential, GoodHistory, LiveSession, DeadEntry, Secured, NoneLost, Whole, Indexed, ReadMeta;
    var m := w.medium;
    assert GoodImage(m.image, d) && Behind(image.events, m.image.events, d);
    assert Whole(image.idx) <= FullIdx(m.image.events, d);
    if w.cutAppends == 0 {
      NoneLostNoneStranded(m, d, image);
      assert false;
    }
    StrandedEntry(m.image.events, image.events, image.idx, d);
    assert StrandedBy(w'.medium, d, image.events, image.idx, |ScanLog(image.events, d, 0).idx|);
  }

  // ── Every step keeps the invariant ──────────────────────────────────────────

  lemma FreshStep(w: World, step: Step, w': World)
    requires Inv(w) && w.medium.image.meta.None? && Next(w, step, w')
    ensures Inv(w')
  {
    hide ScanLog, Open, OpenLeaves, GoodSession, GoodImage, MetaBytes, Durable, GoodMedium, NoneLost, OnDisk;
    var empty := Settled(Image(None, [], []));
    match step
    case OpenStep(dim, now) =>
      FreshOpens(dim, now);
      FreshMediumGood(dim, now);
      assert w'.medium == Settled(Image(Some(MetaBytes(FreshHeader(dim, now))), [], []));
      FreshSession(w'.medium.image, w'.session.value, dim);
      assert LiveAt(w', dim);
      assert InvAt(w', dim);
    case OpenDeath(dim, now, left) =>
      FreshOpenLeaves(dim, now, left);
      FreshMediumGood(dim, now);
      if left != empty {
        assert LiveAt(w', dim);
        assert InvAt(w', dim);
      }
    case PowerLoss(image) =>
      assert image == Image(None, [], []);
    case Die =>
    case _ =>
  }

  lemma FreshSession(img: Image, s: Session, d: u16)
    requires GoodSession(img, s) && s.log == [] && s.header.vectorDim == d
    ensures s.header.lastEventId == 0
  {
    hide Clean, DurableLog;
  }

  lemma OpenKeeps(w: World, dim: u16, now: Time, w': World, d: u16)
    requires LiveAt(w, d) && !w.stranded && Next(w, OpenStep(dim, now), w')
    ensures LiveAt(w', d)
  {
    hide ScanLog, Open, GoodSession, Consistent, Durable, GoodImage, Secured, NoneLost, GoodHistory, LiveSession;
    assert GoodMedium(w.medium, d);
    assert GoodImage(w.medium.image, d);
    if Aligned(w.medium.image.idx) {
      OpenedGood(w.medium, dim, now, d);
    } else {
      MisalignedStays(w.medium, dim, now, d);
    }
  }

  lemma MisalignedStays(m: Medium, dim: u16, now: Time, d: u16)
    requires GoodImage(m.image, d) && !Aligned(m.image.idx)
    ensures Opened(m, dim, now) == (m, Err(IdxMisaligned(|m.image.idx|)))
  {
    hide Consistent, Open;
    OpenMisaligned(m.image, dim, now);
  }

  lemma AppendKeeps(w: World, ev: Event, now: Time, w': World, d: u16)
    requires LiveAt(w, d) && !w.stranded && Next(w, AppendStep(ev, now), w')
    ensures LiveAt(w', d)
  {
    hide ScanLog, GoodSession, Durable, Append, GoodHistory, GoodImage;
    var m, s := w.medium, w.session.value;
    if Append(m.image, s, ev, now).Stored? {
      AppendGood(m.image, s, ev, now);
      SessionLog(m.image, s);
      var p := Append(m.image, s, ev, now).event;
      StoredCompletes(m.image, s, ev, now);
      LogFits(m.image, d);
      HistoryAcked(OnDisk(m.image, d), w.acked, w.begun, w.cutAppends, Submission(ev, now, p));
      SettledIsGood(w'.medium.image, w'.session.value, d);
      HistoryBounds(OnDisk(w'.medium.image, d), w'.acked, w'.begun, w'.cutAppends);
    }
  }

  lemma HistoryBounds(log: seq<Event>, acked: map<u64, Submission>, begun: set<Submission>, cutAppends: nat)
    requires GoodHistory(log, acked, begun, cutAppends)
    ensures forall id | id in acked :: id <= |log|
  {
    hide Durable, WasBegun, Completes;
  }

  /** With everything synced, a good session has secured its whole log. */
  lemma SettledIsGood(img: Image, s: Session, d: u16)
    requires GoodImage(img, d) && GoodSession(img, s) && s.header.vectorDim == d
    ensures var m := Settled(img);
            && GoodMedium(m, d) && LiveSession(m, s, d) && NoneLost(m, d)
            && forall n: nat | n <= |OnDisk(img, d)| :: Secured(m, d, n)
  {
    hide ScanLog, ReadMeta, Sequential;
    SessionHeader(img, s);
    assert Indexed(img.idx) == |OnDisk(img, d)|;
  }

  lemma AppendDeathKeeps(w: World, ev: Event, now: Time, left: Medium, w': World, d: u16)
    requires LiveAt(w, d) && !w.stranded && Next(w, AppendDeath(ev, now, left), w')
    ensures LiveAt(w', d)
  {
    hide ScanLog, GoodSession, GoodImage, Durable, AppendLeaves, GoodHistory, OnDisk, Build, GoodMedium, Secured;
    var s := w.session.value;
    var p := Prepare(ev, s, now, |w.medium.image.events|);
    SessionLog(w.medium.image, s);
    AppendLeavesGood(w.medium, s, p, left);
    LiveCompletes(w, ev, now, d);
    LogFits(w.medium.image, d);
    HistoryCrashed(OnDisk(w.medium.image, d), OnDisk(left.image, d), w.acked, w.begun, w.cutAppends,
                   Submission(ev, now, p));
  }

  lemma LiveCompletes(w: World, ev: Event, now: Time, d: u16)
    requires LiveAt(w, d) && w.session.Some?
    ensures Completes(Prepare(ev, w.session.value, now, |w.medium.image.events|), ev, now, OnDisk(w.medium.image, d))
  {
    hide ScanLog, GoodHistory, Secured, NoneLost, Build, Durable, Completes, Prepare;
    SessionLog(w.medium.image, w.session.value);
    PreparedCompletes(w.session.value, ev, now, |w.medium.image.events|, OnDisk(w.medium.image, d));
  }

  lemma LogFits(img: Image, d: u16)
    ensures |OnDisk(img, d)| + 1 < MAX_FILE
  {
    FileBound(img.events, d);
  }

  lemma SnapshotKeeps(w: World, step: Step, w': World, d: u16)
    requires LiveAt(w, d) && !w.stranded && Next(w, step, w') && (step.SnapshotStep? || step.SnapshotDeath?)
    ensures LiveAt(w', d)
  {
    hide ScanLog, GoodSession, GoodImage, Durable, GoodMedium, OnDisk, SnapshotHeader, MetaBytes, Secured, NoneLost,
      GoodHistory, LiveSession;
    var m, s := w.medium, w.session.value;
    assert s.header.vectorDim == d by { SessionDim(m, s, d); }
    match step
    case SnapshotStep(now) => SnapshotKeepsMedium(m, s, now);
    case SnapshotDeath(now, image) => SnapshotKeepsMedium(m, s, now);
  }

  lemma SessionDim(m: Medium, s: Session, d: u16)
    requires LiveSession(m, s, d)
    ensures s.header.vectorDim == d
  {
  }

  lemma LiveStep(w: World, step: Step, w': World, d: u16)
    requires LiveAt(w, d) && !w.stranded && Next(w, step, w')
    ensures InvAt(w', d)
  {
    hide LiveAt, Next, StrandedAt;
    match step {
      case OpenStep(dim, now) => OpenKeeps(w, dim, now, w', d); NotStranded(w, step, w');
      case OpenDeath(dim, now, left) => OpenDeathKeeps(w, dim, now, left, w', d); NotStranded(w, step, w');
      case AppendStep(ev, now) => AppendKeeps(w, ev, now, w', d); NotStranded(w, step, w');
      case AppendDeath(ev, now, left) => AppendDeathKeeps(w, ev, now, left, w', d); NotStranded(w, step, w');
      case SnapshotStep(_) => SnapshotKeeps(w, step, w', d); NotStranded(w, step, w');
      case SnapshotDeath(_, _) => SnapshotKeeps(w, step, w', d); NotStranded(w, step, w');
      case Die => DieKeeps(w, w', d); NotStranded(w, step, w');
      case PowerLoss(image) =>
        if Strands(image) {
          PowerLossStrands(w, image, w', d);
        } else {
          PowerLossKeeps(w, image, w', d);
          StrandedNow(w, step, w');
        }
    }
  }

  lemma NotStranded(w: World, step: Step, w': World)
    requires Next(w, step, w') && !step.PowerLoss?
    ensures w'.stranded == w.stranded
  {
  }

  lemma StrandedNow(w: World, step: Step, w': World)
    requires Next(w, step, w') && step.PowerLoss?
    ensures w'.stranded == (w.stranded || Strands(step.image))
  {
  }

  lemma DieKeeps(w: World, w': World, d: u16)
    requires LiveAt(w, d) && Next(w, Die, w')
    ensures LiveAt(w', d)
  {
  }

  lemma OpenDeathKeeps(w: World, dim: u16, now: Time, left: Medium, w': World, d: u16)
    requires LiveAt(w, d) && !w.stranded && Next(w, OpenDeath(dim, now, left), w')
    ensures LiveAt(w', d)
  {
    hide ScanLog, GoodSession, GoodImage, Durable, OpenLeaves, OnDisk, GoodMedium, Secured, NoneLost, GoodHistory;
    OpenLeavesGood(w.medium, dim, now, left, d);
  }

  lemma StrandedStep(w: World, step: Step, w': World, d: u16)
    requires w.stranded && StrandedAt(w, d) && Next(w, step, w')
    ensures w'.stranded && StrandedAt(w', d)
  {
    hide ScanLog, Open, OpenLeaves, DeadEntry, Opened, ReadMeta;
    var events, idx, k :| StrandedBy(w.medium, d, events, idx, k);
    match step
    case OpenStep(dim, now) =>
      StrandedOpen(w.medium, dim, now, d, events, idx, k);
      assert StrandedBy(w'.medium, d, events, idx, k);
    case OpenDeath(dim, now, left) =>
      StrandedOpenLeaves(w.medium, dim, now, left, d, events, idx, k);
      assert StrandedBy(w'.medium, d, events, idx, k);
    case PowerLoss(image) =>
      DeadStays(events, idx, d, k, image.events, image.idx);
      assert StrandedBy(w'.medium, d, events, idx, k);
    case Die =>
      assert StrandedBy(w'.medium, d, events, idx, k);
    case _ =>
  }

  lemma StepKeepsInv(w: World, step: Step, w': World)
    requires Inv(w) && Next(w, step, w')
    ensures Inv(w')
  {
    hide LiveAt, Next, StrandedAt;
    if w.medium.image.meta.None? {
      FreshStep(w, step, w');
    } else {
      var d: u16 :| InvAt(w, d);
      if w.stranded {
        StrandedStep(w, step, w', d);
      } else {
        LiveStep(w, step, w', d);
      }
      assert InvAt(w', d);
      InvAtMeta(w', d);
    }
  }

  lemma InvAtMeta(w: World, d: u16)
    requires InvAt(w, d)
    ensures w.medium.image.meta.Some?
  {
  }

  // ── Whole runs ──────────────────────────────────────────────────────────────

  /** A run: the worlds passed through, one step between neighbours. */
  ghost predicate Run(ws: seq<World>, steps: seq<Step>) {
    && |ws| == |steps| + 1 && Init(ws[0])
    && forall i | 0 <= i < |steps| :: Next(ws[i], steps[i], ws[i + 1])
  }

  lemma {:induction false} RunKeepsInv(ws: seq<World>, steps: seq<Step>, n: nat)
    requires Run(ws, steps) && n < |ws|
    ensures Inv(ws[n])
  {
    hide Next, Inv;
    if n == 0 {
      InitInv(ws[0]);
    } else {
      RunKeepsInv(ws, steps, n - 1);
      StepKeepsInv(ws[n - 1], steps[n - 1], ws[n]);
    }
  }

  lemma InitInv(w: World)
    requires Init(w)
    ensures Inv(w)
  {
  }

  /** What a reopened store must hold, given the history of the run. */
  predicate Recovered(s: Session, w: World) {
    && Sequential(s.log)
    && (forall id | id in w.acked :: Holds(s.log, id, w.acked[id]))
    && (forall i | 0 <= i < |s.log| :: WasBegun(s.log, i, w.begun))
    && |s.log| <= |w.acked| + w.cutAppends
    && s.nextId == |s.log| + 1
    && s.header.lastEventId < s.nextId
  }

  /** The run lost indexed records to a power failure: one of its power losses left events.bin without a
      record that the index it left has an entry for. */
  predicate LostIndexed(steps: seq<Step>, n: nat)
    requires n <= |steps|
  {
    exists k | 0 <= k < n :: steps[k].PowerLoss? && Strands(steps[k].image)
  }

  lemma LostIndexedNext(steps: seq<Step>, n: nat)
    requires n < |steps|
    ensures LostIndexed(steps, n + 1) <==>
            LostIndexed(steps, n) || (steps[n].PowerLoss? && Strands(steps[n].image))
  {
    hide Strands;
  }

  lemma {:induction false} StrandedExactly(ws: seq<World>, steps: seq<Step>, n: nat)
    requires Run(ws, steps) && n < |ws|
    ensures ws[n].stranded <==> LostIndexed(steps, n)
  {
    hide Strands, Next;
    if n == 0 {
    } else {
      StrandedExactly(ws, steps, n - 1);
      LostIndexedNext(steps, n - 1);
      hide LostIndexed;
      if steps[n - 1].PowerLoss? {
        StrandedNow(ws[n - 1], steps[n - 1], ws[n]);
      } else {
        NotStranded(ws[n - 1], steps[n - 1], ws[n]);
      }
    }
  }

  /** Crash refinement. After any run of opens, appends, snapshots, deaths at any point and power losses at
      any moment, opening the store succeeds exactly when no index entry is torn and no power loss took
      from events.bin a record that the index kept an entry for. It then holds every event ever
      acknowledged, as the format stores it and under its id, ids count up from 1 without gap, and each
      death inside an append has added at most one event that was never acknowledged. When only a torn
      entry is in the way, open says so and touches no file. */
  lemma ReopenAfterAnyRun(ws: seq<World>, steps: seq<Step>, n: nat, dim: u16, now: Time)
    requires Run(ws, steps) && n < |ws|
    ensures var w := ws[n]; var (img', r) := Open(w.medium.image, dim, now);
            && (r.Ok? <==> Aligned(w.medium.image.idx) && !LostIndexed(steps, n))
            && (r.Ok? ==> Recovered(r.value, w) && Clean(img'.events, img'.idx, r.value.header.vectorDim))
            && (r.Err? && !LostIndexed(steps, n) ==>
                  img' == w.medium.image && r.error == IdxMisaligned(|w.medium.image.idx|))
  {
    hide Next, Open, Inv, LostIndexed;
    RunKeepsInv(ws, steps, n);
    StrandedExactly(ws, steps, n);
    ReopenGood(ws[n], dim, now);
  }

  /** Where no process died inside an append, no power loss ever loses an indexed record. */
  lemma NeverLostWithoutCutAppend(ws: seq<World>, steps: seq<Step>, n: nat)
    requires Run(ws, steps) && n < |ws| && ws[n].cutAppends == 0
    ensures !LostIndexed(steps, n)
  {
    hide Next, LostIndexed, StrandedAt, LiveAt;
    RunKeepsInv(ws, steps, n);
    StrandedExactly(ws, steps, n);
    if ws[n].stranded {
      var d: u16 :| InvAt(ws[n], d);
      StrandedWasCut(ws[n], d);
    }
  }

  lemma StrandedWasCut(w: World, d: u16)
    requires StrandedAt(w, d)
    ensures w.cutAppends > 0
  {
  }

  /** A power loss can lose an indexed record only while events.bin is not synced; a completed append
      syncs it. */
  lemma SyncedIsSafe(m: Medium, d: u16, image: Image)
    requires GoodMedium(m, d) && m.events == iset{m.image.events} && Survives(m, image)
    ensures !Strands(image)
  {
    hide ScanLog, ReadMeta;
    assert image.events == m.image.events;
    NoneLostNoneStranded(m, d, image);
  }

  /** An acknowledged event comes back unchanged exactly when its times survive the format. */
  lemma AcknowledgedUnchanged(s: Session, w: World, id: u64)
    requires Recovered(s, w) && id in w.acked
    ensures var a := w.acked[id];
            && 1 <= id <= |s.log| && (s.log[id - 1] == a.stored <==> FaithfulTimes(a.stored))
            && Completes(a.stored, a.sent, a.now, s.log[..id - 1])
  {
    hide Durable, FaithfulTimes, Completes;
    assert Holds(s.log, id, w.acked[id]);
    TimesSurvive(w.acked[id].stored);
  }

  /** Without a death inside an append, a reopened store holds exactly the acknowledged events. */
  lemma ExactlyAcknowledged(s: Session, w: World)
    requires Recovered(s, w) && w.cutAppends == 0
    ensures forall id :: id in w.acked <==> 1 <= id <= |s.log|
  {
    hide Durable, WasBegun;
    IdsCounted(s.log);
    forall id | id in w.acked ensures id in Ids(s.log) {
      assert s.log[id - 1].id == id;
    }
    hide Sequential;
    assert w.acked.Keys <= Ids(s.log);
    SubsetOfSameSize(w.acked.Keys, Ids(s.log));
  }

  function Ids(log: seq<Event>): set<u64> {
    set i | 0 <= i < |log| :: log[i].id
  }

  lemma SubsetOfSameSize<T>(a: set<T>, b: set<T>)
    requires a <= b && |a| >= |b|
    ensures a == b
  {
    assert b == a + (b - a) && |b| == |a| + |b - a|;
  }

  lemma {:induction false} IdsCounted(log: seq<Event>)
    requires Sequential(log)
    ensures |Ids(log)| == |log| && forall id :: id in Ids(log) <==> 1 <= id <= |log|
  {
    forall id | 1 <= id <= |log| ensures id in Ids(log) {
      assert log[id - 1].id == id;
    }
    if log == [] {
    } else {
      var n := |log| - 1;
      IdsCounted(log[..n]);
      assert Ids(log) == Ids(log[..n]) + {log[n].id};
    }
  }

  lemma ReopenGood(w: World, dim: u16, now: Time)
    requires Inv(w)
    ensures var (img', r) := Open(w.medium.image, dim, now);
            && (r.Ok? <==> Aligned(w.medium.image.idx) && !w.stranded)
            && (r.Ok? ==> Recovered(r.value, w) && Clean(img'.events, img'.idx, r.value.header.vectorDim))
            && (r.Err? && !w.stranded ==> img' == w.medium.image && r.error == IdxMisaligned(|w.medium.image.idx|))
  {
    hide Open, LiveAt, StrandedAt, Recovered, Clean;
    if w.medium.image.meta.None? {
      FreshReopens(w, dim, now);
    } else {
      var d: u16 :| InvAt(w, d);
      hide Inv;
      if w.stranded {
        StrandedFails(w, dim, now, d);
      } else {
        LiveReopens(w, dim, now, d);
      }
    }
  }

  lemma FreshReopens(w: World, dim: u16, now: Time)
    requires w.medium == Settled(Image(None, [], [])) && w.acked == map[]
    ensures var (img', r) := Open(w.medium.image, dim, now);
            r.Ok? && Recovered(r.value, w) && Clean(img'.events, img'.idx, r.value.header.vectorDim)
  {
    hide Open, ScanLog, Durable;
    FreshOpens(dim, now);
  }

  lemma StrandedFails(w: World, dim: u16, now: Time, d: u16)
    requires StrandedAt(w, d)
    ensures Open(w.medium.image, dim, now).1.Err?
  {
    hide Open, StrandedBy;
    var events, idx, k :| StrandedBy(w.medium, d, events, idx, k);
    StrandedOpen(w.medium, dim, now, d, events, idx, k);
  }

  lemma LiveReopens(w: World, dim: u16, now: Time, d: u16)
    requires LiveAt(w, d)
    ensures var (img', r) := Open(w.medium.image, dim, now);
            && (r.Ok? <==> Aligned(w.medium.image.idx))
            && (r.Ok? ==> Recovered(r.value, w) && Clean(img'.events, img'.idx, r.value.header.vectorDim))
            && (r.Err? ==> img' == w.medium.image && r.error == IdxMisaligned(|w.medium.image.idx|))
  {
    hide Open, ScanLog, Durable, Secured, NoneLost, LiveSession;
    assert GoodImage(w.medium.image, d);
    if Aligned(w.medium.image.idx) {
      GoodImageOpens(w.medium.image, dim, now, d);
    } else {
      OpenMisaligned(w.medium.image, dim, now);
    }
  }

  /** While a process runs, its graph is the graph a reopen would rebuild exactly when the times of
      all its events survive the format. */
  lemma LiveGraphEqualsReloaded(ws: seq<World>, steps: seq<Step>, n: nat, dim: u16, now: Time)
    requires Run(ws, steps) && n < |ws| && ws[n].session.Some?
    ensures var (_, r) := Open(ws[n].medium.image, dim, now); var live := ws[n].session.value;
            && r.Ok? && r.value.log == DurableLog(live.log)
            && (Build(live.log) == Build(r.value.log) <==> forall i | 0 <= i < |live.log| :: FaithfulTimes(live.log[i]))
  {
    hide Next, Open, ScanLog, Durable, Build, Secured, NoneLost;
    RunKeepsInv(ws, steps, n);
    var w := ws[n];
    var d: u16 :| InvAt(w, d);
    assert GoodImage(w.medium.image, d);
    CleanIsAligned(w.medium.image.events, w.medium.image.idx, d);
    GoodImageOpens(w.medium.image, dim, now, d);
    LiveIsSequential(w.session.value.log);
    LiveEqualsReloaded(w.session.value.log);
  }

  lemma CleanIsAligned(events: FileBytes, idx: Bytes, dim: u16)
    requires Clean(events, idx, dim)
    ensures Aligned(idx)
  {
    hide ScanLog;
  }

  lemma LiveIsSequential(log: seq<Event>)
    requires Sequential(DurableLog(log))
    ensures Sequential(log)
  {
    DurableKeepsIds(log);
  }
}
