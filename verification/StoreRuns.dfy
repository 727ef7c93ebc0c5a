/** The store over whole runs: opening, appending, snapshotting, and crashing at any point of any
    of these, as steps on the disk, the process and the history of acknowledgements. */
module StoreRuns {
  import opened Prelude
  import opened Format
  import opened EventLog
  import opened EventGraph
  import opened Recovery

  /** What a running process holds: its header, the events it has absorbed, and the next id. */
  datatype Session = Session(header: MetaHeader, log: seq<Event>, nextId: u64)

  // ── The operations ──────────────────────────────────────────────────────────

  /** Unsigned 64-bit increment as release builds perform it. */
  function WrappingInc(n: u64): u64 {
    if n == 0xFFFF_FFFF_FFFF_FFFF then 0 else n + 1
  }

  function CountIndexed(h: MetaHeader, id: u64): MetaHeader {
    h.(lastEventId := if id > h.lastEventId then id else h.lastEventId, eventCount := WrappingInc(h.eventCount))
  }

  function CountAll(h: MetaHeader, recs: seq<IdxRecord>): MetaHeader {
    if recs == [] then h else CountIndexed(CountAll(h, recs[..|recs| - 1]), recs[|recs| - 1].eventId)
  }

  lemma {:induction false} CountAllDim(h: MetaHeader, recs: seq<IdxRecord>)
    ensures CountAll(h, recs).vectorDim == h.vectorDim
  {
    if recs == [] {
    } else {
      CountAllDim(h, recs[..|recs| - 1]);
    }
  }

  function MaxId(recs: seq<IdxRecord>): u64 {
    if recs == [] then 0 else
    var m := MaxId(recs[..|recs| - 1]);
    if recs[|recs| - 1].eventId > m then recs[|recs| - 1].eventId else m
  }

  /** The header an open starts from: read from meta.bin, or made for a fresh store. */
  function OpenHeader(img: Image, dim: u16, now: Time): Result<MetaHeader, StoreError> {
    match img.meta
    case None => Ok(FreshHeader(dim, now))
    case Some(b) => ReadMeta(b)
  }

  function OpenMeta(img: Image, dim: u16, now: Time): Option<Bytes> {
    if img.meta.None? then Some(MetaBytes(FreshHeader(dim, now))) else img.meta
  }

  /** Opening: the files it leaves, and the session or the error it reports. */
  function Open(img: Image, dim: u16, now: Time): (Image, Result<Session, StoreError>) {
    match OpenHeader(img, dim, now)
    case Err(e) => (img, Err(e))
    case Ok(h) =>
      var img1 := img.(meta := OpenMeta(img, dim, now));
      if !Aligned(img.idx) then (img1, Err(IdxMisaligned(|img.idx|))) else
      match Repair(img.events, img.idx, h.vectorDim)
      case Err(e) => (img1, Err(e))
      case Ok(r) =>
        var img2 := img1.(events := r.events, idx := r.idx);
        var recs := ReadIdxFile(r.idx);
        match Load(r.events, recs, h.vectorDim)
        case Err(e) => (img2, Err(e))
        case Ok(log) => (img2, Ok(Session(CountAll(h, r.added), log, WrappingInc(MaxId(recs)))))
  }

  // ── What a death leaves, and what a power loss may make of it ───────────────

  /** The files as every process sees them, and for both of them the contents the medium may fall back
      to when the power fails: what the file passed through since it was last synced. meta.bin is
      replaced atomically and durably. */
  datatype Medium = Medium(image: Image, events: iset<FileBytes>, idx: iset<Bytes>)

  ghost predicate Sound(m: Medium) {
    m.image.events in m.events && m.image.idx in m.idx
  }

  /** Everything is synced. */
  ghost function Settled(img: Image): Medium {
    Medium(img, iset{img.events}, iset{img.idx})
  }

  predicate OnTheWay(from: Bytes, x: Bytes, to: Bytes) {
    from <= x && x <= to
  }

  /** The contents on the way from one file content to an extension of it. */
  ghost function Span(from: Bytes, to: Bytes): iset<Bytes> {
    iset x: Bytes | OnTheWay(from, x, to)
  }

  ghost function EventSpan(from: FileBytes, to: FileBytes): iset<FileBytes> {
    iset x: FileBytes | OnTheWay(from, x, to)
  }

  /** Opening, with what is synced by it: a file that repair changed. */
  ghost function Opened(m: Medium, dim: u16, now: Time): (Medium, Result<Session, StoreError>) {
    var (img, r) := Open(m.image, dim, now);
    (Medium(img,
            if img.events == m.image.events then m.events else iset{img.events},
            if img.idx == m.image.idx then m.idx else iset{img.idx}), r)
  }

  /** What the death of a process anywhere inside an open can leave. */
  ghost predicate OpenLeaves(m: Medium, dim: u16, now: Time, left: Medium) {
    var named := m.(image := m.image.(meta := left.image.meta));
    && (left.image.meta == m.image.meta || left.image.meta == OpenMeta(m.image, dim, now))
    && (left == named || RepairLeaves(m, dim, now, left))
  }

  ghost predicate RepairLeaves(m: Medium, dim: u16, now: Time, left: Medium) {
    && OpenHeader(m.image, dim, now).Ok? && Aligned(m.image.idx)
    && var r := Repair(m.image.events, m.image.idx, OpenHeader(m.image, dim, now).value.vectorDim);
    && r.Ok? && RepairPasses(m.(image := m.image.(meta := OpenMeta(m.image, dim, now))), r.value, left)
  }

  ghost predicate RepairPasses(m: Medium, r: Repaired, left: Medium) {
    && Sound(left) && RepairWrites(m.image, r, left.image)
    && left.events <= m.events + EventSpan(r.events, m.image.events)
    && left.idx <= m.idx + Span(m.image.idx, left.image.idx)
  }

  /** Repair first completes the index, then cuts off what could not be decoded. */
  predicate RepairWrites(img: Image, r: Repaired, left: Image) {
    && left.meta == img.meta
    && (|| (left.events == img.events && img.idx <= left.idx <= r.idx)
        || (left.idx == r.idx && r.events <= left.events <= img.events))
  }

  /** The event as `append_event` completes it: next id, creation time if unset, offset hints of
      the refs it can resolve, and its place in events.bin. */
  function Prepare(ev: Event, s: Session, now: Time, offset: u64): Event {
    ev.(id := s.nextId,
        createdAt := if TimeToNanos(ev.createdAt) == 0 then now else ev.createdAt,
        refs := Hinted(ev.refs, Build(s.log).byId),
        fileOffset := offset)
  }

  function Hint(r: Ref, byId: map<u64, Event>): Ref {
    if r.targetEventId in byId then r.(targetOffsetCache := byId[r.targetEventId].fileOffset) else r
  }

  function Hinted(refs: seq<Ref>, byId: map<u64, Event>): (h: seq<Ref>)
    ensures |h| == |refs|
  {
    seq(|refs|, i requires 0 <= i < |refs| => Hint(refs[i], byId))
  }

  function EntryOf(ev: Event, n: u32): IdxRecord {
    IdxRecord(ev.id, ev.fileOffset, n, ev.createdAt)
  }

  datatype Appended =
    | Refused(error: FormatError)
    | NoRoom
    | Stored(image: Image, session: Session, event: Event)

  function Append(img: Image, s: Session, ev: Event, now: Time): Appended {
    var p := Prepare(ev, s, now, |img.events|);
    var dim := s.header.vectorDim;
    match EncodeFailure(p, dim)
    case Some(e) => Refused(e)
    case None =>
      var rec := EventBytes(p, dim);
      if |img.events| + |rec| > MAX_FILE then NoRoom else
      Stored(img.(events := img.events + rec, idx := img.idx + IdxBytes(EntryOf(p, |rec|))),
             Session(CountIndexed(s.header, p.id), s.log + [p], WrappingInc(p.id)),
             p)
  }

  /** The files when record and index entry are written one after the other and the process dies: any
      part of the record with the old index, or the whole record with any part of the entry. */
  predicate WritesLeave(img: Image, rec: Bytes, entry: Bytes, left: Image) {
    && left.meta == img.meta
    && (|| (left.idx == img.idx && img.events <= left.events <= img.events + rec)
        || (left.events == img.events + rec && img.idx <= left.idx <= img.idx + entry))
  }

  ghost predicate WritesPass(m: Medium, rec: Bytes, entry: Bytes, left: Medium) {
    && Sound(left) && WritesLeave(m.image, rec, entry, left.image)
    && left.events <= m.events + EventSpan(m.image.events, left.image.events)
    && (left.image.idx != m.image.idx ==> left.events == iset{left.image.events})
    && left.idx <= m.idx + Span(m.image.idx, left.image.idx)
  }

  /** What the death of a process inside an append can leave; an I/O error stops the process and counts
      as one. The index is written only after the record was synced. */
  ghost predicate AppendLeaves(m: Medium, s: Session, p: Event, left: Medium)
    requires Encodable(p, s.header.vectorDim)
  {
    var rec := EventBytes(p, s.header.vectorDim);
    WritesPass(m, rec, IdxBytes(EntryOf(p, |rec|)), left)
  }

  function SnapshotHeader(s: Session, now: Time): MetaHeader {
    var g := Build(s.log);
    s.header.(eventCount := |g.byId| % 0x1_0000_0000_0000_0000,
              streamCount := |g.streams| % 0x1_0000_0000_0000_0000,
              lastSnapshotAt := Some(now))
  }

  // ── The machine ─────────────────────────────────────────────────────────────

  /** What a caller handed to an append, the time of day then, and the event written for it. */
  datatype Submission = Submission(sent: Event, now: Time, stored: Event)

  /** The medium, the process if one is running, every append acknowledged so far under its id, every
      append begun, how often a process has died inside an append, and whether a power loss has left the
      index with entries for records that events.bin lost. */
  datatype World = World(
    medium: Medium,
    session: Option<Session>,
    acked: map<u64, Submission>,
    begun: set<Submission>,
    cutAppends: nat,
    stranded: bool)

  /** A process may die anywhere, and the power may fail at any moment; a power loss in the middle of an
      operation is a death there followed by a power loss. */
  datatype Step =
    | OpenStep(dim: u16, now: Time)
    | OpenDeath(dim: u16, now: Time, left: Medium)
    | AppendStep(ev: Event, now: Time)
    | AppendDeath(ev: Event, now: Time, left: Medium)
    | SnapshotStep(now: Time)
    | SnapshotDeath(now: Time, image: Image)
    | Die
    | PowerLoss(image: Image)

  ghost predicate Init(w: World) {
    w == World(Settled(Image(None, [], [])), None, map[], {}, 0, false)
  }

  /** The index has whole entries beyond the records that can be decoded. */
  predicate Strands(img: Image) {
    && img.meta.Some? && ReadMeta(img.meta.value).Ok?
    && |ScanLog(img.events, ReadMeta(img.meta.value).value.vectorDim, 0).idx| < Indexed(img.idx)
  }

  ghost predicate Survives(m: Medium, left: Image) {
    left.meta == m.image.meta && left.events in m.events && left.idx in m.idx
  }

  ghost predicate Next(w: World, step: Step, w': World) {
    match step
    case OpenStep(dim, now) =>
      && w.session.None?
      && var (m, r) := Opened(w.medium, dim, now);
         w' == w.(medium := m, session := if r.Ok? then Some(r.value) else None)
    case OpenDeath(dim, now, left) =>
      && w.session.None? && OpenLeaves(w.medium, dim, now, left)
      && w' == w.(medium := left)
    case AppendStep(ev, now) =>
      && w.session.Some?
      && (match Append(w.medium.image, w.session.value, ev, now)
          case Refused(_) => w' == w
          case NoRoom => false
          case Stored(img, s, p) =>
            var a := Submission(ev, now, p);
            w' == w.(medium := Settled(img), session := Some(s), acked := w.acked[p.id := a], begun := w.begun + {a}))
    case AppendDeath(ev, now, left) =>
      && w.session.Some?
      && var s := w.session.value; var p := Prepare(ev, s, now, |w.medium.image.events|);
         && Encodable(p, s.header.vectorDim) && AppendLeaves(w.medium, s, p, left)
         && w' == w.(medium := left, session := None, begun := w.begun + {Submission(ev, now, p)},
                     cutAppends := w.cutAppends + 1)
    case SnapshotStep(now) =>
      && w.session.Some?
      && var h := SnapshotHeader(w.session.value, now);
         w' == w.(medium := WithMeta(w.medium, MetaBytes(h)), session := Some(w.session.value.(header := h)))
    case SnapshotDeath(now, image) =>
      && w.session.Some?
      && image in {w.medium.image, w.medium.image.(meta := Some(MetaBytes(SnapshotHeader(w.session.value, now))))}
      && w' == w.(medium := w.medium.(image := image), session := None)
    case Die =>
      w' == w.(session := None)
    case PowerLoss(image) =>
      && Survives(w.medium, image)
      && w' == w.(medium := Settled(image), session := None, stranded := w.stranded || Strands(image))
  }

  function WithMeta(m: Medium, b: Bytes): Medium {
    m.(image := m.image.(meta := Some(b)))
  }

  // ── The invariant ───────────────────────────────────────────────────────────

  predicate GoodHeader(h: MetaHeader, n: nat) {
    h.magic == FILE_MAGIC && h.version <= FORMAT_VERSION && h.lastEventId <= n
  }

  /** The events that can be decoded from events.bin. */
  function OnDisk(img: Image, dim: u16): seq<Event> {
    ScanLog(img.events, dim, 0).events
  }

  predicate GoodImage(img: Image, dim: u16) {
    && img.meta.Some?
    && ReadMeta(img.meta.value).Ok?
    && ReadMeta(img.meta.value).value.vectorDim == dim
    && GoodHeader(ReadMeta(img.meta.value).value, |OnDisk(img, dim)|)
    && Consistent(img.events, img.idx, dim)
  }

  predicate GoodSession(img: Image, s: Session) {
    var dim := s.header.vectorDim;
    && Clean(img.events, img.idx, dim)
    && DurableLog(s.log) == OnDisk(img, dim)
    && s.nextId == |s.log| + 1
    && GoodHeader(s.header, |s.log|)
  }

  /** `p` is the event `ev` as an append at the time `now` completes it behind the log `earlier`: the next
      id, the time of day if the event had none, and for every ref the place of its target if the log has
      it. Nothing else changes. */
  predicate Completes(p: Event, ev: Event, now: Time, earlier: seq<Event>) {
    && p == ev.(id := p.id, createdAt := p.createdAt, refs := p.refs, fileOffset := p.fileOffset)
    && p.id == |earlier| + 1
    && p.createdAt == (if Representable(ev.createdAt) && ev.createdAt != 0 then ev.createdAt else now)
    && |p.refs| == |ev.refs|
    && forall i | 0 <= i < |ev.refs| :: RefCompletes(p.refs[i], ev.refs[i], earlier)
  }

  predicate RefCompletes(q: Ref, r: Ref, earlier: seq<Event>) {
    && q.kind == r.kind && q.targetEventId == r.targetEventId
    && q.targetOffsetCache ==
         if 1 <= r.targetEventId <= |earlier| then earlier[r.targetEventId - 1].fileOffset else r.targetOffsetCache
  }

  /** The same behind any log, whose ids need not count up: the last event of an id is the target. */
  predicate Fills(p: Event, ev: Event, now: Time, log: seq<Event>) {
    && p == ev.(id := p.id, createdAt := p.createdAt, refs := p.refs, fileOffset := p.fileOffset)
    && p.createdAt == (if Representable(ev.createdAt) && ev.createdAt != 0 then ev.createdAt else now)
    && |p.refs| == |ev.refs|
    && forall i | 0 <= i < |ev.refs| :: RefFills(p.refs[i], ev.refs[i], log)
  }

  predicate RefFills(q: Ref, r: Ref, log: seq<Event>) {
    && q.kind == r.kind && q.targetEventId == r.targetEventId
    && (forall j | 0 <= j < |log| && IsLast(log, j, r.targetEventId) :: q.targetOffsetCache == log[j].fileOffset)
    && (AbsentId(log, r.targetEventId) ==> q.targetOffsetCache == r.targetOffsetCache)
  }

  predicate IsLast(log: seq<Event>, j: nat, id: u64) {
    j < |log| && log[j].id == id && forall k | j < k < |log| :: log[k].id != id
  }

  predicate AbsentId(log: seq<Event>, id: u64) {
    forall k | 0 <= k < |log| :: log[k].id != id
  }

  lemma {:induction false} ByIdIsLast(log: seq<Event>, id: u64)
    ensures id in Build(log).byId <==> !AbsentId(log, id)
    ensures forall j | 0 <= j < |log| && IsLast(log, j, id) :: id in Build(log).byId && Build(log).byId[id] == log[j]
  {
    hide Build, IsLast, AbsentId;
    if log == [] {
      NothingById(id);
    } else {
      var init, last := log[..|log| - 1], log[|log| - 1];
      ByIdIsLast(init, id);
      ByIdSnoc(log);
      LastOfSnoc(init, last, id);
      assert log == init + [last];
    }
  }

  lemma NothingById(id: u64)
    ensures Build([]).byId == map[] && AbsentId([], id)
  {
  }

  lemma LastOfSnoc(init: seq<Event>, last: Event, id: u64)
    ensures AbsentId(init + [last], id) <==> AbsentId(init, id) && last.id != id
    ensures forall j | 0 <= j <= |init| && IsLast(init + [last], j, id) ::
              if last.id == id then j == |init| else j < |init| && IsLast(init, j, id)
  {
    var log := init + [last];
    assert log[|init|] == last;
    assert forall k | 0 <= k < |init| :: log[k] == init[k];
  }

  lemma ByIdSnoc(log: seq<Event>)
    requires log != []
    ensures Build(log).byId == Build(log[..|log| - 1]).byId[log[|log| - 1].id := log[|log| - 1]]
  {
    hide AbsorbRefs, AbsorbStream;
  }

  /** Whatever the log, what an append stores is what its caller sent. */
  lemma StoredIsSent(img: Image, s: Session, ev: Event, now: Time)
    requires Append(img, s, ev, now).Stored?
    ensures var p := Append(img, s, ev, now).event;
            Fills(p, ev, now, s.log) && p.id == s.nextId && p.fileOffset == |img.events|
  {
    hide Build, EventBytes, IdxBytes, EncodeFailure, IsLast, AbsentId;
    var p := Append(img, s, ev, now).event;
    forall i | 0 <= i < |ev.refs| ensures RefFills(p.refs[i], ev.refs[i], s.log) {
      ByIdIsLast(s.log, ev.refs[i].targetEventId);
    }
  }

  /** The log holds what the caller submitted, under this id and as the format stores it. */
  predicate Holds(log: seq<Event>, id: u64, a: Submission) {
    && 1 <= id <= |log| && log[id - 1] == Durable(a.stored)
    && Completes(a.stored, a.sent, a.now, log[..id - 1])
  }

  /** Every acknowledged event is on disk at its id as its caller sent it, everything on disk was handed to
      an append, and each death inside an append adds at most one event that was never acknowledged. */
  predicate GoodHistory(log: seq<Event>, acked: map<u64, Submission>, begun: set<Submission>, cutAppends: nat) {
    && (forall id | id in acked :: Holds(log, id, acked[id]))
    && (forall i | 0 <= i < |log| :: WasBegun(log, i, begun))
    && |log| <= |acked| + cutAppends
  }

  predicate WasBegun(log: seq<Event>, i: nat, begun: set<Submission>) {
    i < 0xFFFF_FFFF_FFFF_FFFF && exists a | a in begun :: Holds(log, i + 1, a)
  }

  /** What the medium may fall back to holds a part of the current log and of its index. */
  ghost predicate Behind(x: FileBytes, events: FileBytes, dim: u16) {
    && ScanLog(x, dim, 0).events <= ScanLog(events, dim, 0).events
    && ScanLog(x, dim, 0).idx <= ScanLog(events, dim, 0).idx
  }

  ghost predicate GoodMedium(m: Medium, dim: u16) {
    && Sound(m) && GoodImage(m.image, dim)
    && (forall x | x in m.events :: Behind(x, m.image.events, dim))
    && (forall i | i in m.idx :: Whole(i) <= FullIdx(m.image.events, dim))
    && (forall i | i in m.idx :: ReadMeta(m.image.meta.value).value.lastEventId <= Indexed(i))
  }

  /** Whatever the medium falls back to, it holds `n` records and their entries. */
  ghost predicate Secured(m: Medium, dim: u16, n: nat) {
    && (forall x | x in m.events :: n <= |ScanLog(x, dim, 0).events|)
    && (forall i | i in m.idx :: n <= Indexed(i))
  }

  ghost predicate LiveAt(w: World, dim: u16) {
    && GoodMedium(w.medium, dim)
    && (forall id | id in w.acked :: Secured(w.medium, dim, id))
    && GoodHistory(OnDisk(w.medium.image, dim), w.acked, w.begun, w.cutAppends)
    && (w.session.Some? ==> LiveSession(w.medium, w.session.value, dim))
    && (w.cutAppends == 0 ==> NoneLost(w.medium, dim))
  }

  ghost predicate LiveSession(m: Medium, s: Session, dim: u16) {
    && s.header.vectorDim == dim && GoodSession(m.image, s)
    && forall i | i in m.idx :: s.header.lastEventId <= Indexed(i)
  }

  ghost predicate NoneLost(m: Medium, dim: u16) {
    forall x | x in m.events :: |ScanLog(x, dim, 0).idx| == |ScanLog(m.image.events, dim, 0).idx|
  }

  /** Entry `k` of the index names a range that does not decode. */
  predicate DeadEntry(events: FileBytes, idx: Bytes, dim: u16, k: nat) {
    k < Indexed(idx) && LoadOne(events, IdxSlot(idx, k), dim).Err?
  }

  /** Whatever happens to the files from here on, the dead entry stays dead. */
  ghost predicate StrandedBy(m: Medium, dim: u16, events: FileBytes, idx: Bytes, k: nat) {
    && DeadEntry(events, idx, dim, k) && Sound(m)
    && m.image.meta.Some? && ReadMeta(m.image.meta.value).Ok? && ReadMeta(m.image.meta.value).value.vectorDim == dim
    && (forall x | x in m.events :: x <= events)
    && (forall i | i in m.idx :: idx <= i)
  }

  ghost predicate StrandedAt(w: World, dim: u16) {
    w.session.None? && w.cutAppends > 0 && exists events, idx, k :: StrandedBy(w.medium, dim, events, idx, k)
  }

  ghost predicate InvAt(w: World, dim: u16) {
    if w.stranded then StrandedAt(w, dim) else LiveAt(w, dim)
  }

  ghost predicate Inv(w: World) {
    if w.medium.image.meta.None? then
      w.session.None? && w.medium == Settled(Image(None, [], [])) && w.acked == map[] && !w.stranded
    else
      exists dim: u16 :: InvAt(w, dim)
  }
}
