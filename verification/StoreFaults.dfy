/** A process that lives on after a write or a sync has failed: the caller gets an error, and the next append
    goes on from what the failed one has counted. */
module StoreFaults {
  import opened Prelude
  import opened Utf8
  import opened LittleEndian
  import opened Format
  import opened EventLog
  import opened EventGraph
  import opened Recovery
  import opened StoreRuns
  import opened StoreSafety
  import opened StoreStranding

  /** The files up to where the process will write next, what it holds, the events whose entry failed
      since the last append that succeeded, whether an append has succeeded behind such an event, and the
      bytes that failed records have left in events.bin behind the place of the next one. */
  datatype Serving = Serving(image: Image, session: Session, pending: seq<Event>, gapped: bool, after: Bytes)

  /** How an append ends: answered with an id; with the record counted and its entry failed; or with its
      record failed, of which the first `written` bytes are in the file. A sync that fails leaves all of them. */
  datatype Outcome = Answered | EntryFails | RecordFails(written: nat)

  /** What is left of `b` behind its first `n` bytes. */
  function Rest(b: Bytes, n: nat): Bytes {
    if n < |b| then b[n..] else []
  }

  function RecordOf(img: Image, s: Session, ev: Event, now: Time): Bytes
    requires Append(img, s, ev, now).Stored?
  {
    EventBytes(Append(img, s, ev, now).event, s.header.vectorDim)
  }

  predicate Appends(a: Serving, ev: Event, now: Time, outcome: Outcome, b: Serving) {
    && Append(a.image, a.session, ev, now).Stored?
    && var Stored(img, s, p) := Append(a.image, a.session, ev, now);
       var rec := RecordOf(a.image, a.session, ev, now);
       match outcome
       case Answered => b == Serving(img, s, [], a.gapped || a.pending != [], Rest(a.after, |rec|))
       case EntryFails =>
         b == a.(image := a.image.(events := img.events), pending := a.pending + [p], after := Rest(a.after, |rec|))
       case RecordFails(k) => k <= |rec| && b == a.(after := rec[..k] + Rest(a.after, k))
  }

  datatype Request = Request(ev: Event, now: Time, outcome: Outcome)

  predicate Serves(states: seq<Serving>, requests: seq<Request>) {
    && |states| == |requests| + 1
    && forall i | 0 <= i < |requests| ::
         Appends(states[i], requests[i].ev, requests[i].now, requests[i].outcome, states[i + 1])
  }

  predicate Starts(a: Serving) {
    && a.pending == [] && !a.gapped && a.after == []
    && GoodImage(a.image, a.session.header.vectorDim) && GoodSession(a.image, a.session)
  }

  // ── What a process holds while it goes on ───────────────────────────────────

  /** Every event in memory can be read through its entry, in order. */
  predicate Readable(events: FileBytes, idx: Bytes, log: seq<Event>, d: u16) {
    && |idx| == |log| * IDX_RECORD_SIZE
    && forall i | 0 <= i < |log| ::
         IdxSlot(idx, i).eventId == i + 1 && LoadOne(events, IdxSlot(idx, i), d) == Ok(Durable(log[i]))
  }

  /** Behind the indexed records stand those of `pending`, and nothing else. */
  predicate Behindhand(events: FileBytes, covered: nat, d: u16, pending: seq<Event>) {
    && covered <= |events|
    && var s := ScanLog(events[covered..], d, covered);
       s.events == DurableLog(pending) && s.clean == |events| - covered
  }

  predicate TiledUnless(gapped: bool, idx: Bytes) {
    Aligned(idx) && (Tiles(ReadIdxFile(idx), 0, CoveredEnd(idx)) <==> !gapped)
  }

  predicate MetaOf(img: Image, d: u16) {
    img.meta.Some? && ReadMeta(img.meta.value).Ok? && ReadMeta(img.meta.value).value.vectorDim == d
  }

  predicate Counted(s: Session, idx: Bytes) {
    && Aligned(idx) && s.nextId == |s.log| + 1 && |s.log| * EVENT_HEADER_SIZE <= CoveredEnd(idx)
    && forall i | 0 <= i < |s.log| :: s.log[i].id == i + 1
  }

  predicate Holding(a: Serving) {
    var d := a.session.header.vectorDim;
    && MetaOf(a.image, d) && Counted(a.session, a.image.idx)
    && Readable(a.image.events, a.image.idx, a.session.log, d)
    && Behindhand(a.image.events, CoveredEnd(a.image.idx), d, a.pending)
    && (forall i | 0 <= i < |a.pending| :: a.pending[i].id == a.session.nextId)
    && TiledUnless(a.gapped, a.image.idx)
    && |a.image.events| + |a.after| <= MAX_FILE
  }

  // ── Appending ───────────────────────────────────────────────────────────────

  lemma ReadStays(events: FileBytes, longer: FileBytes, rec: IdxRecord, d: u16)
    requires events <= longer && LoadOne(events, rec, d).Ok?
    ensures LoadOne(longer, rec, d) == LoadOne(events, rec, d)
  {
    hide DecodeEvent;
    assert longer[rec.fileOffset..End(rec)] == events[rec.fileOffset..End(rec)];
  }

  lemma SlotStays(idx: Bytes, longer: Bytes, i: nat)
    requires idx <= longer && (i + 1) * IDX_RECORD_SIZE <= |idx|
    ensures IdxSlot(longer, i) == IdxSlot(idx, i)
  {
    hide DecodeIdx;
    var from, to := i * IDX_RECORD_SIZE, (i + 1) * IDX_RECORD_SIZE;
    assert longer[from..to] == idx[from..to];
  }

  lemma ReadableStays(events: FileBytes, longer: FileBytes, idx: Bytes, log: seq<Event>, d: u16)
    requires events <= longer && Readable(events, idx, log, d)
    ensures Readable(longer, idx, log, d)
  {
    hide LoadOne, IdxSlot, Durable;
    forall i | 0 <= i < |log| ensures LoadOne(longer, IdxSlot(idx, i), d) == Ok(Durable(log[i])) {
      ReadStays(events, longer, IdxSlot(idx, i), d);
    }
  }

  /** The entry just written as it will be read. */
  function NewEntry(p: Event, d: u16): IdxRecord
    requires Encodable(p, d)
  {
    RecordSizeBound(p, d);
    EntryOf(p, |EventBytes(p, d)|).(createdAt := TimeToNanos(p.createdAt))
  }

  function Longer(idx: Bytes, p: Event, d: u16): Bytes
    requires Encodable(p, d)
  {
    RecordSizeBound(p, d);
    idx + IdxBytes(EntryOf(p, |EventBytes(p, d)|))
  }

  lemma NewSlot(idx: Bytes, p: Event, d: u16)
    requires Encodable(p, d) && Aligned(idx)
    ensures |Longer(idx, p, d)| == |idx| + IDX_RECORD_SIZE && IdxSlot(Longer(idx, p, d), Indexed(idx)) == NewEntry(p, d)
  {
    hide EventBytes, IdxBytes, DecodeIdx;
    RecordSizeBound(p, d);
    var rec := EntryOf(p, |EventBytes(p, d)|);
    var longer := idx + IdxBytes(rec);
    DecodeIdxBytes(rec, []);
    assert IdxBytes(rec) + [] == IdxBytes(rec);
    assert longer[|idx|..|idx| + IDX_RECORD_SIZE] == IdxBytes(rec);
  }

  lemma NewRecord(events: FileBytes, p: Event, d: u16)
    requires Encodable(p, d) && p.fileOffset == |events| && |events| + |EventBytes(p, d)| <= MAX_FILE
    ensures LoadOne(events + EventBytes(p, d), NewEntry(p, d), d) == Ok(Durable(p))
  {
    hide EventBytes, DecodeEvent;
    var n := |EventBytes(p, d)|;
    DecodeEncoded(p, d, []);
    assert EventBytes(p, d) + [] == EventBytes(p, d);
    assert (events + EventBytes(p, d))[|events|..|events| + n] == EventBytes(p, d);
    DurableId(p);
  }

  /** The records behind the index, with one more. */
  lemma OneMoreBehind(events: FileBytes, covered: nat, d: u16, pending: seq<Event>, p: Event)
    requires Behindhand(events, covered, d, pending)
    requires Encodable(p, d) && p.fileOffset == |events| && |events| + |EventBytes(p, d)| <= MAX_FILE
    ensures Behindhand(events + EventBytes(p, d), covered, d, pending + [p])
  {
    hide ScanLog, EventBytes, Durable, DurableLog;
    RecordSizeBound(p, d);
    var rec := EventBytes(p, d);
    assert (events + rec)[covered..] == events[covered..] + rec;
    ScanConcat(events[covered..], rec, d, covered);
    ScanRecord(p, d, |events|);
    DurableId(p);
    assert Durable(p).(fileOffset := |events|) == Durable(p);
    DurableLogSnoc(pending, p);
  }

  lemma NothingBehind(events: FileBytes, d: u16)
    ensures Behindhand(events, |events|, d, [])
  {
    hide ScanLog;
    assert events[|events|..] == [];
    EmptyScan(d, |events|);
  }

  /** The index reaches the end of events.bin exactly when no record is behind. */
  lemma CaughtUp(events: FileBytes, covered: nat, d: u16, pending: seq<Event>)
    requires Behindhand(events, covered, d, pending)
    ensures covered == |events| <==> pending == []
  {
    hide DecodeEvent, Durable;
    DurableLogLen(pending);
  }

  lemma TilesOne(r: IdxRecord, from: nat)
    ensures Tiles([r], from, End(r)) <==> r.fileOffset == from && r.recordLen >= EVENT_HEADER_SIZE
  {
    assert [r][1..] == [];
  }

  /** The index with one more entry tiles what it covers exactly when it did before and the entry
      follows. */
  lemma OneMoreTile(idx: Bytes, p: Event, d: u16, gapped: bool)
    requires Encodable(p, d) && TiledUnless(gapped, idx)
    ensures TiledUnless(gapped || p.fileOffset != CoveredEnd(idx), Longer(idx, p, d))
    ensures Aligned(Longer(idx, p, d)) && CoveredEnd(Longer(idx, p, d)) == p.fileOffset + |EventBytes(p, d)|
  {
    hide IdxSlot, Longer, Tiles, EventBytes;
    var r, longer := NewEntry(p, d), Longer(idx, p, d);
    NewSlot(idx, p, d);
    RecordSizeBound(p, d);
    LongerExtends(idx, p, d);
    assert ReadIdxFile(longer) == ReadIdxFile(idx) + [r] by {
      forall i | 0 <= i < Indexed(idx) ensures IdxSlot(longer, i) == IdxSlot(idx, i) {
        SlotStays(idx, longer, i);
      }
    }
    TilesConcat(ReadIdxFile(idx), [r], 0, End(r));
    TilesOne(r, CoveredEnd(idx));
  }

  lemma LongerExtends(idx: Bytes, p: Event, d: u16)
    requires Encodable(p, d)
    ensures idx <= Longer(idx, p, d)
  {
    hide EventBytes, IdxBytes;
  }

  lemma OneMoreReadable(events: FileBytes, idx: Bytes, log: seq<Event>, d: u16, p: Event)
    requires Readable(events, idx, log, d) && p.id == |log| + 1
    requires Encodable(p, d) && p.fileOffset == |events| && |events| + |EventBytes(p, d)| <= MAX_FILE
    ensures Readable(events + EventBytes(p, d), Longer(idx, p, d), log + [p], d)
  {
    hide LoadOne, IdxSlot, Durable, EventBytes, Longer, NewEntry;
    var events', idx', log' := events + EventBytes(p, d), Longer(idx, p, d), log + [p];
    NewSlot(idx, p, d);
    NewRecord(events, p, d);
    NewEntryId(p, d);
    LongerExtends(idx, p, d);
    ReadableStays(events, events', idx, log, d);
    forall i | 0 <= i < |log'|
      ensures IdxSlot(idx', i).eventId == i + 1 && LoadOne(events', IdxSlot(idx', i), d) == Ok(Durable(log'[i]))
    {
      if i < |log| {
        SlotStays(idx, idx', i);
      }
    }
  }

  lemma NewEntryId(p: Event, d: u16)
    requires Encodable(p, d)
    ensures NewEntry(p, d).eventId == p.id
  {
    hide EventBytes;
  }

  /** What one stored append comes to. */
  lemma StoredParts(img: Image, s: Session, ev: Event, now: Time)
    requires Append(img, s, ev, now).Stored?
    ensures var Stored(img', s', p) := Append(img, s, ev, now); var d := s.header.vectorDim;
            && Encodable(p, d) && p.fileOffset == |img.events| && |img.events| + |EventBytes(p, d)| <= MAX_FILE
            && p.id == s.nextId && |EventBytes(p, d)| >= EVENT_HEADER_SIZE
            && img' == Image(img.meta, img.events + EventBytes(p, d), Longer(img.idx, p, d))
            && s'.header.vectorDim == d && s'.log == s.log + [p] && s'.nextId == WrappingInc(s.nextId)
  {
    hide EventBytes, IdxBytes, Hinted, Build;
    RecordSizeBound(Append(img, s, ev, now).event, s.header.vectorDim);
  }

  /** An append whose entry fails keeps all of it: one more record is behind. */
  lemma FailedEntryKeeps(a: Serving, ev: Event, now: Time, b: Serving)
    requires Holding(a) && Appends(a, ev, now, EntryFails, b)
    ensures Holding(b)
  {
    hide EventBytes, Longer, Append, DurableLog, Readable, CoveredEnd, Behindhand, Counted, TiledUnless,
      Encodable, ReadMeta;
    StoredParts(a.image, a.session, ev, now);
    var p := Append(a.image, a.session, ev, now).event;
    var d := a.session.header.vectorDim;
    assert Aligned(a.image.idx) by { CountedIsAligned(a); }
    OneMoreBehind(a.image.events, CoveredEnd(a.image.idx), d, a.pending, p);
    ReadableStays(a.image.events, b.image.events, a.image.idx, a.session.log, d);
  }

  lemma CountedIsAligned(a: Serving)
    requires Counted(a.session, a.image.idx)
    ensures Aligned(a.image.idx)
  {
  }

  /** An append that succeeds leaves nothing behind, but a gap in the index if something was. */
  lemma WrittenEntryKeeps(a: Serving, ev: Event, now: Time, b: Serving)
    requires Holding(a) && Appends(a, ev, now, Answered, b)
    ensures Holding(b)
  {
    hide ScanLog, EventBytes, IdxSlot, Longer, Append, DurableLog, ReadMeta, Readable, CoveredEnd, Tiles, Behindhand;
    StoredParts(a.image, a.session, ev, now);
    var Stored(img, _, p) := Append(a.image, a.session, ev, now);
    var d := a.session.header.vectorDim;
    CaughtUp(a.image.events, CoveredEnd(a.image.idx), d, a.pending);
    OneMoreTile(a.image.idx, p, d, a.gapped);
    OneMoreReadable(a.image.events, a.image.idx, a.session.log, d, p);
    NothingBehind(img.events, d);
    assert CoveredEnd(a.image.idx) <= |a.image.events| by { BehindBound(a); }
  }

  /** An append whose record fails keeps everything but the bytes behind. */
  lemma FailedRecordKeeps(a: Serving, ev: Event, now: Time, written: nat, b: Serving)
    requires Holding(a) && Appends(a, ev, now, RecordFails(written), b)
    ensures Holding(b)
  {
    hide ScanLog, EventBytes, IdxSlot, Longer, Append, DurableLog, ReadMeta, Readable, CoveredEnd, Tiles, Behindhand;
    StoredParts(a.image, a.session, ev, now);
  }

  lemma BehindBound(a: Serving)
    requires Holding(a)
    ensures CoveredEnd(a.image.idx) <= |a.image.events|
  {
  }

  /** A store just opened holds all of it. */
  lemma StartHolds(a: Serving)
    requires Starts(a)
    ensures Holding(a)
  {
    hide ScanLog, IdxFile, ReadMeta, LoadOne, IdxSlot, Durable, Tiles, DurableLog;
    var d, events, idx, log := a.session.header.vectorDim, a.image.events, a.image.idx, a.session.log;
    CleanIsCovered(events, idx, d);
    CoveredOfConsistent(events, idx, d);
    StartReadable(a);
    StartCounted(a);
    NothingBehind(events, d);
    hide Clean, Behindhand, GoodSession, Readable;
  }

  lemma StartCounted(a: Serving)
    requires Starts(a)
    ensures Counted(a.session, a.image.idx) && CoveredEnd(a.image.idx) == |a.image.events|
    ensures TiledUnless(false, a.image.idx)
  {
    hide ScanLog, ReadMeta, IdxSlot, DurableLog, Durable;
    var d, events, idx := a.session.header.vectorDim, a.image.events, a.image.idx;
    CleanIsCovered(events, idx, d);
    CleanIsAligned(events, idx, d);
    RepairedIsClean(events, d);
    DurableLogLen(a.session.log);
    LiveIsSequential(a.session.log);
    TiledEnd(idx, |events|);
  }

  lemma TiledEnd(idx: Bytes, n: nat)
    requires Aligned(idx) && Tiles(ReadIdxFile(idx), 0, n)
    ensures CoveredEnd(idx) == n
  {
    hide IdxSlot;
    if ReadIdxFile(idx) != [] {
      TilesEnd(ReadIdxFile(idx), 0, n);
    }
  }

  lemma StartReadable(a: Serving)
    requires Starts(a)
    ensures Readable(a.image.events, a.image.idx, a.session.log, a.session.header.vectorDim)
  {
    hide ScanLog, ReadMeta, IdxFile, DecodeEvent, Durable, IdxSlot;
    var d, events, idx, log := a.session.header.vectorDim, a.image.events, a.image.idx, a.session.log;
    var s := ScanLog(events, d, 0);
    DurableLogLen(log);
    ScanTimes(events, d);
    ReadIdxOfScan(s.idx);
    ScanIds(events, d);
    forall i | 0 <= i < |log|
      ensures IdxSlot(idx, i) == s.idx[i] && LoadOne(events, s.idx[i], d) == Ok(Durable(log[i]))
    {
      assert ReadIdxFile(idx)[i] == IdxSlot(idx, i);
      ScanEntry(events, d, 0, i);
      assert DurableLog(log)[i] == Durable(log[i]);
    }
  }

  /** Whatever entries fail, everything acknowledged stays readable in its place, and the records whose
      entries failed since the last success stand behind it. */
  lemma {:induction false} ServesHolding(states: seq<Serving>, requests: seq<Request>, n: nat)
    requires Serves(states, requests) && Starts(states[0]) && n < |states|
    ensures Holding(states[n])
  {
    hide Holding, Appends, Starts;
    if n == 0 {
      StartHolds(states[0]);
    } else {
      ServesHolding(states, requests, n - 1);
      var r := requests[n - 1];
      assert Appends(states[n - 1], r.ev, r.now, r.outcome, states[n]);
      match r.outcome
      case Answered => WrittenEntryKeeps(states[n - 1], r.ev, r.now, states[n]);
      case EntryFails => FailedEntryKeeps(states[n - 1], r.ev, r.now, states[n]);
      case RecordFails(k) => FailedRecordKeeps(states[n - 1], r.ev, r.now, k, states[n]);
    }
  }

  // ── Reopening ───────────────────────────────────────────────────────────────

  /** events.bin as it is, with the bytes that failed records left. */
  function OnFile(a: Serving): Image
    requires |a.image.events| + |a.after| <= MAX_FILE
  {
    a.image.(events := a.image.events + a.after)
  }

  /** What a repair decodes from the bytes that failed records left. */
  function Back(a: Serving): Scan
    requires |a.image.events| + |a.after| <= MAX_FILE
  {
    ScanLog(a.after, a.session.header.vectorDim, |a.image.events|)
  }

  lemma {:induction false} LoadEach(events: FileBytes, recs: seq<IdxRecord>, d: u16, log: seq<Event>)
    requires |recs| == |log| && forall i | 0 <= i < |recs| :: LoadOne(events, recs[i], d) == Ok(log[i])
    ensures Load(events, recs, d) == Ok(log)
  {
    hide LoadOne;
    if recs == [] {
    } else {
      var n := |recs| - 1;
      LoadEach(events, recs[..n], d, log[..n]);
      assert log == log[..n] + [log[n]];
    }
  }

  lemma {:induction false} MaxIdUpTo(recs: seq<IdxRecord>, k: nat)
    requires forall i | 0 <= i < |recs| :: recs[i].eventId == if i < k then i + 1 else k + 1
    ensures MaxId(recs) == if |recs| <= k then |recs| else k + 1
  {
    if recs == [] {
    } else {
      MaxIdUpTo(recs[..|recs| - 1], k);
    }
  }

  lemma ReadAppended(idx: Bytes, recs: seq<IdxRecord>)
    requires Aligned(idx) && forall i | 0 <= i < |recs| :: Representable(recs[i].createdAt)
    ensures Aligned(idx + IdxFile(recs)) && ReadIdxFile(idx + IdxFile(recs)) == ReadIdxFile(idx) + recs
  {
    hide IdxSlot, IdxFile;
    var longer, k := idx + IdxFile(recs), Indexed(idx);
    ReadIdxOfScan(recs);
    forall i | 0 <= i < k ensures IdxSlot(longer, i) == IdxSlot(idx, i) {
      SlotStays(idx, longer, i);
    }
    forall i | 0 <= i < |recs| ensures IdxSlot(longer, k + i) == recs[i] {
      SlotBehind(idx, IdxFile(recs), i);
      assert ReadIdxFile(IdxFile(recs))[i] == recs[i];
    }
  }

  lemma SlotBehind(idx: Bytes, more: Bytes, i: nat)
    requires Aligned(idx) && (i + 1) * IDX_RECORD_SIZE <= |more|
    ensures IdxSlot(idx + more, Indexed(idx) + i) == IdxSlot(more, i)
  {
    hide DecodeIdx;
    var from, to := i * IDX_RECORD_SIZE, (i + 1) * IDX_RECORD_SIZE;
    assert (idx + more)[|idx| + from..|idx| + to] == more[from..to];
  }

  /** What repair leaves of a file whose index covers `covered` bytes of it. */
  function Tail(events: FileBytes, d: u16, covered: nat): Scan
    requires covered <= |events|
  {
    ScanLog(events[covered..], d, covered)
  }

  /** The records behind the index are those of `pending`, and then what decodes of the rest. */
  lemma TailIs(a: Serving)
    requires Holding(a)
    ensures var d := a.session.header.vectorDim; var covered := CoveredEnd(a.image.idx);
            var behind := ScanLog(a.image.events[covered..], d, covered);
            && Tail(OnFile(a).events, d, covered) == Join(behind, Back(a))
            && behind.events == DurableLog(a.pending) && behind.clean == |a.image.events| - covered
  {
    hide ScanLog, Readable, TiledUnless, CoveredEnd, DurableLog, Join, ReadMeta;
    var d, covered := a.session.header.vectorDim, CoveredEnd(a.image.idx);
    assert (a.image.events + a.after)[covered..] == a.image.events[covered..] + a.after;
    ScanConcat(a.image.events[covered..], a.after, d, covered);
  }

  /** Reading through the index and the entries repair adds gives the indexed events and the repaired ones. */
  lemma LoadThrough(events: FileBytes, idx: Bytes, log: seq<Event>, d: u16, covered: nat)
    requires Aligned(idx) && Readable(events, idx, log, d) && covered <= |events|
    ensures var t := Tail(events, d, covered);
            Load(events, ReadIdxFile(idx) + t.idx, d) == Ok(DurableLog(log) + t.events)
  {
    hide ScanLog, IdxSlot, DecodeEvent, Load, Durable;
    var t, k := Tail(events, d, covered), |log|;
    var recs, all := ReadIdxFile(idx) + t.idx, DurableLog(log) + t.events;
    DurableLogLen(log);
    forall i | 0 <= i < |recs| ensures LoadOne(events, recs[i], d) == Ok(all[i]) {
      if i < k {
        assert recs[i] == IdxSlot(idx, i) && all[i] == Durable(log[i]);
      } else {
        var r := t.idx[i - k];
        ScanEntry(events[covered..], d, covered, i - k);
        assert events[covered..][r.fileOffset - covered..End(r) - covered] == events[r.fileOffset..End(r)];
      }
    }
    LoadEach(events, recs, d, all);
  }

  lemma TailTimes(events: FileBytes, d: u16, covered: nat)
    requires covered <= |events|
    ensures var t := Tail(events, d, covered); forall i | 0 <= i < |t.idx| :: Representable(t.idx[i].createdAt)
  {
    hide ScanLog;
    var t := Tail(events, d, covered);
    forall i | 0 <= i < |t.idx| ensures Representable(t.idx[i].createdAt) {
      ScanEntry(events[covered..], d, covered, i);
    }
  }

  /** Cutting off what does not decode leaves what repair found. */
  lemma TailOfCut(events: FileBytes, d: u16, covered: nat)
    requires covered <= |events|
    ensures var t := Tail(events, d, covered);
            covered + t.clean <= |events| && Tail(events[..covered + t.clean], d, covered) == t
  {
    hide ScanLog;
    var t := Tail(events, d, covered);
    ScanClean(events[covered..], d, covered);
    assert events[..covered + t.clean][covered..] == events[covered..][..t.clean];
  }

  /** Opening files whose index can be read through: repair keeps what decodes behind it. */
  lemma ReadableOpens(img: Image, head: FileBytes, log: seq<Event>, d: u16, dim: u16, now: Time)
    requires MetaOf(img, d) && Aligned(img.idx) && CoveredEnd(img.idx) <= |img.events|
    requires Readable(head, img.idx, log, d) && head <= img.events
    requires |head| <= CoveredEnd(img.idx) + Tail(img.events, d, CoveredEnd(img.idx)).clean
    ensures var (img', r) := Open(img, dim, now); var t := Tail(img.events, d, CoveredEnd(img.idx));
            && r.Ok? && r.value.log == DurableLog(log) + t.events
            && r.value.nextId == WrappingInc(MaxId(ReadIdxFile(img.idx) + t.idx))
            && img'.events == img.events[..CoveredEnd(img.idx) + t.clean]
            && Aligned(img'.idx) && ReadIdxFile(img'.idx) == ReadIdxFile(img.idx) + t.idx
  {
    hide ScanLog, ReadMeta, IdxFile, Readable, CoveredEnd, Load, ReadIdxFile, DurableLog, MaxId;
    var covered := CoveredEnd(img.idx);
    var t := Tail(img.events, d, covered);
    TailTimes(img.events, d, covered);
    TailOfCut(img.events, d, covered);
    var kept := img.events[..covered + t.clean];
    assert head <= kept;
    ReadableStays(head, kept, img.idx, log, d);
    ReadAppended(img.idx, t.idx);
    LoadThrough(kept, img.idx, log, d, covered);
  }

  /** The ids the index ends up with when nothing but the pending records stands behind it. */
  lemma LastId(a: Serving)
    requires Holding(a) && Back(a).events == []
    ensures var t := Tail(OnFile(a).events, a.session.header.vectorDim, CoveredEnd(a.image.idx));
            MaxId(ReadIdxFile(a.image.idx) + t.idx) == |a.session.log| + (if a.pending == [] then 0 else 1)
  {
    hide ScanLog, IdxSlot, ReadMeta, DecodeEvent, TiledUnless, CoveredEnd, Durable, Back;
    var d, covered, k := a.session.header.vectorDim, CoveredEnd(a.image.idx), |a.session.log|;
    TailIs(a);
    var t, recs := Tail(OnFile(a).events, d, covered), ReadIdxFile(a.image.idx) + Tail(OnFile(a).events, d, covered).idx;
    forall i | 0 <= i < |recs| ensures recs[i].eventId == if i < k then i + 1 else k + 1 {
      if i < k {
        assert recs[i] == IdxSlot(a.image.idx, i);
      } else {
        ScanEntry(OnFile(a).events[covered..], d, covered, i - k);
        DurableId(a.pending[i - k]);
      }
    }
    MaxIdUpTo(recs, k);
    DurableLogLen(a.pending);
  }

  /** The completed index tiles what is kept, unless a gap was left. */
  lemma TilesOnFile(a: Serving)
    requires Holding(a)
    ensures var d := a.session.header.vectorDim; var covered := CoveredEnd(a.image.idx);
            var t := Tail(OnFile(a).events, d, covered);
            Tiles(ReadIdxFile(a.image.idx) + t.idx, 0, covered + t.clean) <==> !a.gapped
  {
    hide ScanLog, IdxSlot, ReadMeta, Tiles, Readable, DurableLog, Behindhand;
    var d, covered := a.session.header.vectorDim, CoveredEnd(a.image.idx);
    BehindBound(a);
    var t := Tail(OnFile(a).events, d, covered);
    ScanTiles(OnFile(a).events[covered..], d, covered);
    TilesConcat(ReadIdxFile(a.image.idx), t.idx, 0, covered + t.clean);
  }

  /** What a reopen makes of the files such a process leaves. */
  lemma HoldingOpens(a: Serving, dim: u16, now: Time)
    requires Holding(a)
    ensures var (img', r) := Open(OnFile(a), dim, now);
            && r.Ok? && r.value.log == DurableLog(a.session.log) + DurableLog(a.pending) + Back(a).events
            && img'.events == a.image.events + a.after[..Back(a).clean] && Aligned(img'.idx)
            && (Tiles(ReadIdxFile(img'.idx), 0, |img'.events|) <==> !a.gapped)
            && (Back(a).events == [] ==> r.value.nextId == a.session.nextId + (if a.pending == [] then 0 else 1))
  {
    hide Readable, Behindhand, TiledUnless, CoveredEnd, ScanLog, ReadIdxFile, MaxId, Tiles, DurableLog, Open, ReadMeta,
      Back, Tail;
    BehindBound(a);
    TailIs(a);
    TilesOnFile(a);
    LogBound(a);
    ReadableOpens(OnFile(a), a.image.events, a.session.log, a.session.header.vectorDim, dim, now);
    if Back(a).events == [] {
      LastId(a);
    }
    BackWithin(a);
    KeptOnFile(a.image.events, a.after, Back(a).clean);
  }

  lemma BackWithin(a: Serving)
    requires |a.image.events| + |a.after| <= MAX_FILE
    ensures Back(a).clean <= |a.after|
  {
    hide ScanLog;
  }

  lemma KeptOnFile(events: Bytes, after: Bytes, n: nat)
    requires n <= |after|
    ensures (events + after)[..|events| + n] == events + after[..n]
  {
  }

  lemma LogBound(a: Serving)
    requires Holding(a)
    ensures |a.session.log| + 2 <= MAX_FILE
  {
    hide Readable, TiledUnless, ScanLog, CoveredEnd;
  }

  /** Ids count up from 1 in a log whose last events all took the next id exactly when there is at most
      one of these. */
  lemma SequentialUpTo(log: seq<Event>, pending: seq<Event>)
    requires forall i | 0 <= i < |log| :: log[i].id == i + 1
    requires forall i | 0 <= i < |pending| :: pending[i].id == |log| + 1
    ensures Sequential(DurableLog(log) + DurableLog(pending)) <==> |pending| <= 1
  {
    hide Durable;
    var all := DurableLog(log) + DurableLog(pending);
    forall i | 0 <= i < |all| ensures all[i].id == if i < |log| then i + 1 else |log| + 1 {
      if i < |log| {
        DurableId(log[i]);
      } else {
        DurableId(pending[i - |log|]);
      }
    }
    if |pending| > 1 {
      assert all[|log| + 1].id == |log| + 1;
    }
  }

  // ── What comes back of a failed record ──────────────────────────────────────

  /** Repair cuts the bytes behind the last counted record off exactly when no record begins there. */
  lemma CutOffIff(a: Serving)
    requires Holding(a)
    ensures var d := a.session.header.vectorDim;
            && (Back(a).events == [] <==> DecodeEvent(a.after, d).Err?)
            && (Back(a).clean == 0 <==> DecodeEvent(a.after, d).Err?)
  {
    hide DecodeEvent, ScanLog, Join, Readable, TiledUnless, Behindhand, ReadMeta;
    var d := a.session.header.vectorDim;
    ScanUnfold(a.after, d, |a.image.events|);
    if DecodeEvent(a.after, d).Ok? {
      var (ev, n) := DecodeEvent(a.after, d).value;
      JoinOne(ev, n, |a.image.events|, ScanLog(a.after[n..], d, |a.image.events| + n));
    }
  }

  lemma JoinOne(ev: Event, n: u32, at: u64, rest: Scan)
    ensures Join(One(ev, n, at), rest).events == [ev.(fileOffset := at)] + rest.events
    ensures Join(One(ev, n, at), rest).clean == n + rest.clean
  {
  }

  /** A failed record, as far as it is in the file. */
  lemma FailedRecordParts(a: Serving, ev: Event, now: Time, written: nat, b: Serving)
    requires Holding(a) && Appends(a, ev, now, RecordFails(written), b)
    ensures Holding(b) && b == a.(after := b.after) && Append(a.image, a.session, ev, now).Stored?
    ensures var rec := RecordOf(a.image, a.session, ev, now);
            && written <= |rec| && b.after == rec[..written] + Rest(a.after, written)
            && (written < |rec| ==> DecodeEvent(rec[..written], a.session.header.vectorDim).Err?)
  {
    hide ScanLog, EventBytes, Append, Holding, DecodeEvent;
    FailedRecordKeeps(a, ev, now, written, b);
    StoredParts(a.image, a.session, ev, now);
    if written < |RecordOf(a.image, a.session, ev, now)| {
      ProperPrefixRejected(Append(a.image, a.session, ev, now).event, a.session.header.vectorDim, written);
    }
  }

  /** A part of a failed record is cut off. */
  lemma TornIsCut(a: Serving, ev: Event, now: Time, written: nat, b: Serving)
    requires Holding(a) && a.after == [] && Append(a.image, a.session, ev, now).Stored?
    requires Appends(a, ev, now, RecordFails(written), b) && written < |RecordOf(a.image, a.session, ev, now)|
    ensures Holding(b)
    ensures Back(b).events == [] && Back(b).clean == 0
  {
    hide ScanLog, DecodeEvent, EventBytes, Append, Holding, Appends;
    FailedRecordParts(a, ev, now, written, b);
    var torn := RecordOf(a.image, a.session, ev, now)[..written];
    assert torn + [] == torn;
    CutOffIff(b);
  }

  /** A failed record that is wholly in the file comes back as its event, under the id its caller did not get,
      before whatever else decodes. */
  lemma WholeComesBack(a: Serving, ev: Event, now: Time, b: Serving)
    requires Holding(a) && Append(a.image, a.session, ev, now).Stored?
    requires Appends(a, ev, now, RecordFails(|RecordOf(a.image, a.session, ev, now)|), b)
    ensures Holding(b)
    ensures var p := Append(a.image, a.session, ev, now).event;
            && p.id == a.session.nextId && Back(b).events != [] && Back(b).events[0] == Durable(p)
            && (a.after == [] ==> Back(b).events == [Durable(p)])
  {
    hide ScanLog, EventBytes, Append, Durable, Holding, Join, One, Appends, DecodeEvent;
    var d, rec := a.session.header.vectorDim, RecordOf(a.image, a.session, ev, now);
    FailedRecordParts(a, ev, now, |rec|, b);
    StoredParts(a.image, a.session, ev, now);
    assert rec[..|rec|] == rec;
    RecordInFront(a.image.events, Append(a.image, a.session, ev, now).event, d, Rest(a.after, |rec|)) by { FitsOnFile(b); }
  }

  lemma FitsOnFile(a: Serving)
    requires Holding(a)
    ensures |a.image.events| + |a.after| <= MAX_FILE
  {
    hide Counted, Readable, Behindhand, TiledUnless, MetaOf;
  }

  lemma RecordInFront(events: FileBytes, p: Event, d: u16, rest: Bytes)
    requires Encodable(p, d) && p.fileOffset == |events| && |events| + |EventBytes(p, d)| + |rest| <= MAX_FILE
    ensures var s := ScanLog(EventBytes(p, d) + rest, d, |events|);
            s.events != [] && s.events[0] == Durable(p) && (rest == [] ==> s.events == [Durable(p)])
  {
    hide ScanLog, EventBytes, Durable, Encodable, EventRecordSize;
    RecordAlone(p, d, |events|);
    CleanInFront(EventBytes(p, d), Durable(p), d, |events|, rest);
  }

  lemma CleanInFront(rec: Bytes, ev: Event, d: u16, at: u64, rest: Bytes)
    requires at + |rec| + |rest| <= MAX_FILE
    requires ScanLog(rec, d, at).clean == |rec| && ScanLog(rec, d, at).events == [ev]
    ensures ScanLog(rec + rest, d, at).events == [ev] + ScanLog(rest, d, at + |rec|).events
    ensures rest == [] ==> ScanLog(rest, d, at + |rec|).events == []
  {
    hide ScanLog, Join;
    ScanConcat(rec, rest, d, at);
    JoinEvents(ScanLog(rec, d, at), ScanLog(rest, d, at + |rec|));
    EmptyScan(d, at + |rec|);
  }

  lemma JoinEvents(a: Scan, b: Scan)
    ensures Join(a, b).events == a.events + b.events
  {
  }

  lemma RecordAlone(p: Event, d: u16, at: u64)
    requires Encodable(p, d) && p.fileOffset == at && at + |EventBytes(p, d)| <= MAX_FILE
    ensures ScanLog(EventBytes(p, d), d, at).events == [Durable(p)]
    ensures ScanLog(EventBytes(p, d), d, at).clean == |EventBytes(p, d)|
  {
    hide ScanLog, EventBytes, Durable;
    ScanRecord(p, d, at);
    DurableId(p);
    assert Durable(p).(fileOffset := at) == Durable(p);
  }

  /** An answered append overwrites the head of what is behind. */
  lemma AnsweredParts(a: Serving, ev: Event, now: Time, b: Serving)
    requires Holding(a) && Appends(a, ev, now, Answered, b)
    ensures Holding(b) && Append(a.image, a.session, ev, now).Stored?
    ensures b.after == Rest(a.after, |RecordOf(a.image, a.session, ev, now)|)
    ensures b.session.header.vectorDim == a.session.header.vectorDim
  {
    hide ScanLog, EventBytes, Append, Holding;
    WrittenEntryKeeps(a, ev, now, b);
    StoredParts(a.image, a.session, ev, now);
  }

  /** A failed record wholly in the file, whose head the next one overwrites: its remains come back as events
      exactly when a record begins in them. */
  lemma RemainsComeBackIff(a: Serving, ev: Event, now: Time, b: Serving, ev': Event, now': Time, c: Serving)
    requires Holding(a) && a.after == [] && Append(a.image, a.session, ev, now).Stored?
    requires Appends(a, ev, now, RecordFails(|RecordOf(a.image, a.session, ev, now)|), b)
    requires Append(b.image, b.session, ev', now').Stored? && Appends(b, ev', now', Answered, c)
    ensures Holding(c)
    ensures var rec, over := RecordOf(a.image, a.session, ev, now), RecordOf(b.image, b.session, ev', now');
            && c.after == Rest(rec, |over|)
            && (Back(c).events != [] <==>
                 |over| < |rec| && DecodeEvent(rec[|over|..], a.session.header.vectorDim).Ok?)
  {
    hide ScanLog, DecodeEvent, EventBytes, Append, Holding, Appends, RecordOf;
    var rec := RecordOf(a.image, a.session, ev, now);
    FailedRecordParts(a, ev, now, |rec|, b);
    assert rec[..|rec|] + [] == rec;
    AnsweredParts(b, ev', now', c);
    CutOffIff(c);
    ShortIsNoRecord(a.session.header.vectorDim);
  }

  lemma ShortIsNoRecord(d: u16)
    ensures DecodeEvent([], d).Err?
  {
  }

  // ── What a failed entry leaves ──────────────────────────────────────────────

  /** A part of a failed entry keeps the store from opening until an answered append overwrites it. */
  lemma TornEntryIsReported(a: Serving, part: Bytes, dim: u16, now: Time)
    requires Holding(a) && 0 < |part| < IDX_RECORD_SIZE
    ensures var img := OnFile(a).(idx := a.image.idx + part);
            Open(img, dim, now) == (img, Err(IdxMisaligned(|img.idx|)))
  {
    hide Open, Holding;
    HoldingIsAligned(a);
    FitsOnFile(a);
    OpenMisaligned(OnFile(a).(idx := a.image.idx + part), dim, now);
  }

  /** A failed entry that is wholly in the file leaves the files that an answered append would leave, so a
      reopen finds its event as if it had been acknowledged. */
  lemma WholeEntryIsAnswered(a: Serving, ev: Event, now: Time, b: Serving, c: Serving)
    requires Holding(a) && Appends(a, ev, now, EntryFails, b) && Appends(a, ev, now, Answered, c)
    ensures Holding(b) && Holding(c)
    ensures |c.image.idx| == |b.image.idx| + IDX_RECORD_SIZE && OnFile(b) == OnFile(c).(idx := b.image.idx)
    ensures b.image.idx <= c.image.idx && c.session.log == b.session.log + [Append(a.image, a.session, ev, now).event]
  {
    hide Holding, Append, RecordOf, EventBytes, Longer;
    FailedEntryKeeps(a, ev, now, b);
    WrittenEntryKeeps(a, ev, now, c);
    StoredParts(a.image, a.session, ev, now);
    FitsOnFile(b);
    FitsOnFile(c);
    HoldingIsAligned(a);
    var p, d := Append(a.image, a.session, ev, now).event, a.session.header.vectorDim;
    NewSlot(a.image.idx, p, d);
    LongerExtends(a.image.idx, p, d);
  }

  lemma HoldingIsAligned(a: Serving)
    requires Holding(a)
    ensures Aligned(a.image.idx) && a.image.meta.Some? && ReadMeta(a.image.meta.value).Ok?
  {
    hide Readable, Behindhand, TiledUnless;
  }

  // ── Whole runs ──────────────────────────────────────────────────────────────

  /** How many entries failed since the last append that was answered. */
  function Failing(requests: seq<Request>, n: nat): nat
    requires n <= |requests|
  {
    if n == 0 then 0 else
    match requests[n - 1].outcome
    case Answered => 0
    case EntryFails => Failing(requests, n - 1) + 1
    case RecordFails(_) => Failing(requests, n - 1)
  }

  /** An entry failed and a later append was answered. */
  predicate PassedOver(requests: seq<Request>, n: nat)
    requires n <= |requests|
  {
    exists i, j :: 0 <= i < j < n && requests[i].outcome.EntryFails? && requests[j].outcome.Answered?
  }

  predicate SomeFailed(requests: seq<Request>, n: nat)
    requires n <= |requests|
  {
    exists i :: 0 <= i < n && requests[i].outcome.EntryFails?
  }

  /** What one append does to the account of failures, and to what was acknowledged. */
  lemma StepCounted(a: Serving, ev: Event, now: Time, outcome: Outcome, b: Serving)
    requires Appends(a, ev, now, outcome, b)
    ensures match outcome
            case Answered => b.pending == [] && (b.gapped <==> a.gapped || a.pending != [])
            case EntryFails => |b.pending| == |a.pending| + 1 && b.gapped == a.gapped
            case RecordFails(_) => b.pending == a.pending && b.gapped == a.gapped
    ensures a.session.log <= b.session.log
  {
    hide EventBytes, RecordOf, Build, Prepare, EncodeFailure, IdxBytes, Rest;
  }

  lemma {:induction false} FaultsCounted(states: seq<Serving>, requests: seq<Request>, n: nat)
    requires Serves(states, requests) && Starts(states[0]) && n < |states|
    ensures |states[n].pending| == Failing(requests, n)
    ensures states[n].gapped <==> PassedOver(requests, n)
    ensures states[n].gapped || states[n].pending != [] <==> SomeFailed(requests, n)
  {
    hide Appends, Starts;
    if n == 0 {
      assert Starts(states[0]);
      StartsClear(states[0]);
    } else {
      FaultsCounted(states, requests, n - 1);
      var r := requests[n - 1];
      StepCounted(states[n - 1], r.ev, r.now, r.outcome, states[n]);
    }
  }

  lemma StartsClear(a: Serving)
    requires Starts(a)
    ensures a.pending == [] && !a.gapped
  {
  }

  /** What was acknowledged stays in memory, in its place. */
  lemma {:induction false} AcknowledgedStays(states: seq<Serving>, requests: seq<Request>, m: nat, n: nat)
    requires Serves(states, requests) && m <= n < |states|
    ensures states[m].session.log <= states[n].session.log
  {
    hide Appends;
    if m == n {
    } else {
      AcknowledgedStays(states, requests, m, n - 1);
      var r := requests[n - 1];
      StepCounted(states[n - 1], r.ev, r.now, r.outcome, states[n]);
    }
  }

  /** What one append writes is what its caller sent. */
  lemma WrittenIsSent(a: Serving, ev: Event, now: Time, outcome: Outcome, b: Serving)
    requires Appends(a, ev, now, outcome, b)
    ensures outcome.Answered? ==>
              var log, k := b.session.log, |a.session.log|;
              && log == a.session.log + [log[k]] && log[k].id == a.session.nextId
              && Fills(log[k], ev, now, a.session.log)
    ensures outcome.EntryFails? ==>
              var last := b.pending[|b.pending| - 1];
              && b.pending == a.pending + [last] && last.id == a.session.nextId
              && Fills(last, ev, now, a.session.log)
  {
    hide EventBytes, RecordOf, Build, Prepare, EncodeFailure, IdxBytes, Rest, Fills;
    StoredIsSent(a.image, a.session, ev, now);
    StoredParts(a.image, a.session, ev, now);
  }

  /** Position `k` of the log holds what was sent, under its id. */
  predicate HeldAs(log: seq<Event>, k: nat, ev: Event, now: Time, earlier: seq<Event>) {
    k < |log| && log[k].id == k + 1 && Fills(log[k], ev, now, earlier)
  }

  /** The log a new process loads. */
  function Reopened(a: Serving, dim: u16, now: Time): Result<seq<Event>, StoreError>
    requires |a.image.events| + |a.after| <= MAX_FILE
  {
    match Open(OnFile(a), dim, now).1
    case Ok(s) => Ok(s.log)
    case Err(e) => Err(e)
  }

  /** Whatever failed before and fails later: an answered append is held under the id it was answered with, as
      its caller sent it, and a reopen finds it there. */
  lemma AnsweredIsHeld(states: seq<Serving>, requests: seq<Request>, i: nat, n: nat, dim: u16, now: Time)
    requires Serves(states, requests) && Starts(states[0]) && i < n < |states| && requests[i].outcome.Answered?
    ensures Holding(states[n])
    ensures var earlier, log := states[i].session.log, states[n].session.log;
            && states[i].session.nextId == |earlier| + 1
            && HeldAs(log, |earlier|, requests[i].ev, requests[i].now, earlier)
            && Reopened(states[n], dim, now).Ok? && DurableLog(log) <= Reopened(states[n], dim, now).value
  {
    hide Appends, Open, Starts, Fills, DurableLog, Tiles, ReadIdxFile, Failing, PassedOver, Back, DecodeEvent, OnFile;
    var r := requests[i];
    WrittenIsSent(states[i], r.ev, r.now, r.outcome, states[i + 1]);
    AcknowledgedStays(states, requests, i + 1, n);
    ServesHolding(states, requests, i);
    NextCounts(states[i]);
    hide Holding;
    ReopenAfterFaults(states, requests, n, dim, now);
  }

  lemma NextCounts(a: Serving)
    requires Holding(a)
    ensures a.session.nextId == |a.session.log| + 1
  {
  }

  /** A process that goes on after failed writes and syncs, and a reopen after it. Open always succeeds; it
      holds every acknowledged event under its id and in its place, then the events whose entries failed since
      the last answer, then what decodes of the bytes that failed records left; the rest of these is cut off,
      all of it exactly when no record begins there. When nothing of them comes back, ids count up from 1
      exactly when at most one entry failed since the last answer. The index tiles events.bin exactly when
      no answer followed a failed entry. */
  lemma ReopenAfterFaults(states: seq<Serving>, requests: seq<Request>, n: nat, dim: u16, now: Time)
    requires Serves(states, requests) && Starts(states[0]) && n < |states|
    ensures Holding(states[n])
    ensures var a := states[n]; var (img', r) := Open(OnFile(a), dim, now);
            && r.Ok? && r.value.log == DurableLog(a.session.log) + DurableLog(a.pending) + Back(a).events
            && (forall m | 0 <= m <= n :: DurableLog(states[m].session.log) <= r.value.log)
            && img'.events == a.image.events + a.after[..Back(a).clean] && Aligned(img'.idx)
            && (Back(a).events == [] <==> DecodeEvent(a.after, a.session.header.vectorDim).Err?)
            && (Back(a).clean == 0 <==> DecodeEvent(a.after, a.session.header.vectorDim).Err?)
            && (Back(a).events == [] ==> (Sequential(r.value.log) <==> Failing(requests, n) <= 1))
            && (Back(a).events == [] ==>
                  r.value.nextId == a.session.nextId + if Failing(requests, n) == 0 then 0 else 1)
            && (Tiles(ReadIdxFile(img'.idx), 0, |img'.events|) <==> !PassedOver(requests, n))
  {
    hide Open, Sequential, Serves, Starts, Failing, PassedOver, SomeFailed, Tiles, ReadIdxFile, Readable, Behindhand,
      TiledUnless, CoveredEnd, Durable, Back, DecodeEvent, MetaOf;
    ServesHolding(states, requests, n);
    FaultsCounted(states, requests, n);
    var a := states[n];
    HoldingOpens(a, dim, now);
    CutOffIff(a);
    SequentialUpTo(a.session.log, a.pending);
    assert DurableLog(a.session.log) + DurableLog(a.pending) + [] == DurableLog(a.session.log) + DurableLog(a.pending);
    forall m | 0 <= m <= n ensures DurableLog(states[m].session.log) <= DurableLog(a.session.log) {
      AcknowledgedStays(states, requests, m, n);
    }
  }

  lemma PlainAppends(a: Serving, fails: bool) returns (b: Serving)
    requires a.session.header.vectorDim == 0 && |a.image.events| <= 4_000_000
    ensures Appends(a, PLAIN, 1, if fails then EntryFails else Answered, b) && b.session.header.vectorDim == 0
    ensures |b.image.events| <= |a.image.events| + 1_572_889 && (a.after == [] ==> b.after == [])
  {
    hide Append, RecordOf;
    PlainIsStored(a.image, a.session);
    var Stored(img, s, p) := Append(a.image, a.session, PLAIN, 1);
    var after := Rest(a.after, |RecordOf(a.image, a.session, PLAIN, 1)|);
    b := if fails then a.(image := a.image.(events := img.events), pending := a.pending + [p], after := after)
         else Serving(img, s, [], a.gapped || a.pending != [], after);
  }

  lemma FreshServing() returns (a: Serving)
    ensures Starts(a) && a.session.header.vectorDim == 0 && a.image.events == [] && a.session.nextId == 1
    ensures a.session.log == [] && a.after == []
  {
    hide Open, GoodSession, GoodImage;
    FreshOpens(0, 1);
    var (img, r) := Open(Image(None, [], []), 0, 1);
    a := Serving(img, r.value, [], false, []);
    SessionLog(img, r.value);
  }

  /** On a fresh store: two entries fail, then an append is answered. A reopen after the second finds two
      events with one id, a reopen after the third an index with a gap. */
  lemma FaultyRun(dim: u16, now: Time) returns (states: seq<Serving>, requests: seq<Request>)
    ensures Serves(states, requests) && Starts(states[0]) && |requests| == 3
    ensures states[2].after == states[3].after == []
    ensures var r := Open(states[2].image, dim, now).1; r.Ok? && !Sequential(r.value.log)
    ensures var (img', r) := Open(states[3].image, dim, now);
            r.Ok? && Aligned(img'.idx) && !Tiles(ReadIdxFile(img'.idx), 0, |img'.events|)
  {
    hide Open, Appends, ReadIdxFile, Tiles, Sequential, Starts, Holding;
    var a := FreshServing();
    var b := PlainAppends(a, true);
    var c := PlainAppends(b, true);
    var d := PlainAppends(c, false);
    states := [a, b, c, d];
    requests := [Request(PLAIN, 1, EntryFails), Request(PLAIN, 1, EntryFails), Request(PLAIN, 1, Answered)];
    ReopenAfterFaults(states, requests, 2, dim, now);
    ReopenAfterFaults(states, requests, 3, dim, now);
    ShortIsNoRecord(0);
    assert c.image.events + c.after == c.image.events && d.image.events + d.after == d.image.events;
    assert requests[0].outcome.EntryFails? && requests[2].outcome.Answered?;
  }

  lemma NothingAfter(a: Serving)
    requires Starts(a)
    ensures a.after == []
  {
  }

  // ── Remains that come back ──────────────────────────────────────────────────

  lemma {:induction false} SmallIsAscii(n: nat, k: nat)
    requires n < 0x80
    ensures Ascii(ToLe(n, k))
  {
    if k == 0 {
    } else {
      SmallIsAscii(n / 256, k - 1);
    }
  }

  const INNER := PLAIN.(id := 7)

  lemma InnerIsText()
    ensures Encodable(INNER, 0) && |EventBytes(INNER, 0)| == EVENT_HEADER_SIZE && Valid(EventBytes(INNER, 0))
  {
    hide ToLe, Valid;
    var f := EventFixed(INNER, 0);
    forall n: nat, k: nat | n < 0x80 ensures Ascii(ToLe(n, k)) {
      SmallIsAscii(n, k);
    }
    assert Ascii(LeadBytes(f)) && Ascii(CountBytes(f));
    assert EventBytes(INNER, 0) == FixedBytes(f);
    AsciiIsValid(EventBytes(INNER, 0));
  }

  /** The text of this event is the record of another. */
  function Holder(): (ev: Event)
    ensures Encodable(INNER, 0) && ev.content == EventBytes(INNER, 0)
    ensures ev == PLAIN.(content := ev.content)
  {
    InnerIsText();
    PLAIN.(content := EventBytes(INNER, 0))
  }

  /** On an empty store, the record of the holder reaches the file and its sync fails; the next append
      overwrites its header exactly. */
  lemma HolderFails(a: Serving) returns (b: Serving, c: Serving)
    requires Starts(a) && a.session.header.vectorDim == 0 && a.image.events == [] && a.session.nextId == 1
    ensures Append(a.image, a.session, Holder(), 1).Stored?
    ensures Appends(a, Holder(), 1, RecordFails(|RecordOf(a.image, a.session, Holder(), 1)|), b)
    ensures Appends(b, PLAIN, 1, Answered, c) && |c.session.log| == |a.session.log| + 1
    ensures c.after == EventBytes(INNER, 0) && |c.image.events| == EVENT_HEADER_SIZE
    ensures c.pending == [] && c.session.header.vectorDim == 0
  {
    hide EventBytes, IdxBytes, Build, Starts;
    InnerIsText();
    var p := Prepare(Holder(), a.session, 1, 0);
    var rec := EventBytes(p, 0);
    FieldsInPlace(p, 0, []);
    assert rec + [] == rec;
    assert rec[EVENT_HEADER_SIZE..] == EventBytes(INNER, 0);
    NothingAfter(a);
    assert rec[..|rec|] + [] == rec;
    b := a.(after := rec);
    PlainIsStored(b.image, b.session);
    var q := Prepare(PLAIN, b.session, 1, 0);
    assert |EventBytes(q, 0)| == EVENT_HEADER_SIZE;
    var Stored(img, s, _) := Append(b.image, b.session, PLAIN, 1);
    c := Serving(img, s, [], a.gapped || a.pending != [], Rest(rec, EVENT_HEADER_SIZE));
  }

  /** One append is answered; a reopen finds two events, the second from the text of an event whose append
      had failed. */
  lemma RemainsRun(dim: u16, now: Time) returns (states: seq<Serving>, requests: seq<Request>)
    ensures Serves(states, requests) && Starts(states[0]) && |requests| == 2 && Holding(states[2])
    ensures |states[2].session.log| == 1
    ensures var r := Open(OnFile(states[2]), dim, now).1;
            && r.Ok? && |r.value.log| == 2 && r.value.log[1] == Durable(INNER).(fileOffset := EVENT_HEADER_SIZE)
            && !Sequential(r.value.log)
  {
    hide Open, Appends, Append, Holding, EventBytes, Starts, Holder, RecordOf, Back, DecodeEvent, Tiles;
    var a := FreshServing();
    var b, c := HolderFails(a);
    var whole := |RecordOf(a.image, a.session, Holder(), 1)|;
    states := [a, b, c];
    requests := [Request(Holder(), 1, RecordFails(whole)), Request(PLAIN, 1, Answered)];
    ReopenAfterFaults(states, requests, 2, dim, now);
    var r := Open(OnFile(c), dim, now).1;
    assert Back(c).events == [Durable(INNER).(fileOffset := EVENT_HEADER_SIZE)] by { InnerBehind(c); }
    DurableLogLen(c.session.log);
    assert DurableLog([]) == [];
    assert r.value.log[1].id == 7;
  }

  lemma InnerBehind(c: Serving)
    requires Encodable(INNER, 0) && c.after == EventBytes(INNER, 0) && |c.image.events| == EVENT_HEADER_SIZE
    requires c.session.header.vectorDim == 0 && |c.image.events| + |c.after| <= MAX_FILE
    ensures Back(c).events == [Durable(INNER).(fileOffset := EVENT_HEADER_SIZE)]
  {
    hide ScanLog;
    var p := INNER.(fileOffset := EVENT_HEADER_SIZE);
    assert EventBytes(p, 0) == EventBytes(INNER, 0);
    RecordAlone(p, 0, EVENT_HEADER_SIZE);
  }
}
