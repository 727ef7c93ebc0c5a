/** Opening a store, as a function of what is on disk: the meta header, the crash-window repair
    of events.idx, and the load of every indexed event. */
module Recovery {
  import opened Prelude
  import opened Utf8
  import opened Format
  import opened EventLog
  import opened EventGraph

  type FileBytes = b: Bytes | |b| <= MAX_FILE witness []

  /** The three files; meta.bin is absent in a directory that never held a store. */
  datatype Image = Image(meta: Option<Bytes>, events: FileBytes, idx: Bytes)

  datatype StoreError =
    | Io
    | BadFormat(error: FormatError)
    | IdxMisaligned(size: nat)
    | IdxAhead(covered: nat, events: nat)
    | MetaShort

  predicate Aligned(idx: Bytes) {
    |idx| % IDX_RECORD_SIZE == 0
  }

  // ── Specification ───────────────────────────────────────────────────────────

  function FreshHeader(dim: u16, now: Time): MetaHeader {
    MetaHeader(FILE_MAGIC, FORMAT_VERSION, dim, 0, 0, 0, now, None)
  }

  function ReadMeta(b: Bytes): Result<MetaHeader, StoreError> {
    if |b| < META_HEADER_SIZE then Err(MetaShort) else
    match DecodeMeta(b)
    case Err(e) => Err(BadFormat(e))
    case Ok(h) => Ok(h)
  }

  function IdxSlot(idx: Bytes, i: nat): IdxRecord
    requires (i + 1) * IDX_RECORD_SIZE <= |idx|
  {
    DecodeIdx(idx[i * IDX_RECORD_SIZE..(i + 1) * IDX_RECORD_SIZE]).value
  }

  function ReadIdxFile(idx: Bytes): (recs: seq<IdxRecord>)
    requires Aligned(idx)
  {
    seq(|idx| / IDX_RECORD_SIZE, i requires 0 <= i < |idx| / IDX_RECORD_SIZE => IdxSlot(idx, i))
  }

  function CoveredEnd(idx: Bytes): nat
    requires Aligned(idx)
  {
    var n := |idx| / IDX_RECORD_SIZE;
    if n == 0 then 0 else End(IdxSlot(idx, n - 1))
  }

  /** What repair leaves in the two files, and the entries it adds. */
  datatype Repaired = Repaired(events: FileBytes, idx: Bytes, added: seq<IdxRecord>)

  function Repair(events: FileBytes, idx: Bytes, dim: u16): (r: Result<Repaired, StoreError>)
    requires Aligned(idx)
    ensures r.Ok? ==> r.value.events <= events && idx <= r.value.idx && Aligned(r.value.idx)
  {
    var covered := CoveredEnd(idx);
    if covered > |events| then Err(IdxAhead(covered, |events|)) else
    Ok(RepairFrom(events, idx, dim, covered))
  }

  function RepairFrom(events: FileBytes, idx: Bytes, dim: u16, covered: nat): (r: Repaired)
    requires Aligned(idx) && covered <= |events|
    ensures r.events <= events && idx <= r.idx && Aligned(r.idx)
  {
    var tail := ScanLog(events[covered..], dim, covered);
    IdxFileAligned(idx, tail.idx);
    Repaired(events[..covered + tail.clean], idx + IdxFile(tail.idx), tail.idx)
  }

  lemma IdxFileAligned(idx: Bytes, recs: seq<IdxRecord>)
    requires Aligned(idx)
    ensures Aligned(idx + IdxFile(recs))
  {
    hide IdxFile;
  }

  function LoadOne(events: Bytes, rec: IdxRecord, dim: u16): Result<Event, StoreError> {
    if End(rec) > |events| then Err(Io) else
    match DecodeEvent(events[rec.fileOffset..End(rec)], dim)
    case Err(e) => Err(BadFormat(e))
    case Ok((ev, _)) => Ok(ev.(fileOffset := rec.fileOffset))
  }

  /** Loads the indexed events in index order, stopping at the first that cannot be read. */
  function Load(events: Bytes, recs: seq<IdxRecord>, dim: u16): Result<seq<Event>, StoreError> {
    if recs == [] then Ok([]) else
    match Load(events, recs[..|recs| - 1], dim)
    case Err(e) => Err(e)
    case Ok(log) =>
      match LoadOne(events, recs[|recs| - 1], dim)
      case Err(e) => Err(e)
      case Ok(ev) => Ok(log + [ev])
  }

  // ── What the scan knows about its index entries ─────────────────────────────

  /** Where the first `m` entries of a scan end. */
  function Covered(s: Scan, m: nat, at: nat): nat
    requires m <= |s.idx|
  {
    if m == 0 then at else End(s.idx[m - 1])
  }

  /** Scanning resumes behind any entry as if the scan had started there. */
  lemma {:induction false} ScanResumes(b: Bytes, dim: u16, at: nat, m: nat)
    requires at + |b| <= MAX_FILE && m <= |ScanLog(b, dim, at).idx|
    ensures var s := ScanLog(b, dim, at); var end := Covered(s, m, at);
            && at <= end <= at + s.clean
            && ScanLog(b[end - at..], dim, end) == Scan(s.events[m..], s.idx[m..], at + s.clean - end)
  {
    hide ScanLog, DecodeEvent;
    if m == 0 {
      assert b[0..] == b;
    } else {
      ScanUnfold(b, dim, at);
      var (ev, n) := DecodeEvent(b, dim).value;
      ScanResumes(b[n..], dim, at + n, m - 1);
      var s, rest := ScanLog(b, dim, at), ScanLog(b[n..], dim, at + n);
      assert Covered(s, m, at) == Covered(rest, m - 1, at + n);
      var end := Covered(s, m, at);
      assert b[end - at..] == b[n..][end - (at + n)..];
      assert s.events[m..] == rest.events[m - 1..] && s.idx[m..] == rest.idx[m - 1..];
    }
  }

  /** Entry `i` of a scan locates event `i`, and reading that range alone gives the event. */
  lemma ScanEntry(b: Bytes, dim: u16, at: nat, i: nat)
    requires at + |b| <= MAX_FILE && i < |ScanLog(b, dim, at).idx|
    ensures var s := ScanLog(b, dim, at); var r := s.idx[i];
            && r.eventId == s.events[i].id && r.createdAt == s.events[i].createdAt && Representable(r.createdAt)
            && s.events[i].fileOffset == r.fileOffset
            && at <= r.fileOffset && End(r) <= at + |b|
            && DecodeEvent(b[r.fileOffset - at..End(r) - at], dim) == Ok((s.events[i].(fileOffset := 0), r.recordLen))
  {
    hide ScanLog, DecodeEvent, Representable;
    ScanResumes(b, dim, at, i);
    var s := ScanLog(b, dim, at);
    var end := Covered(s, i, at);
    var c := b[end - at..];
    var rest := ScanLog(c, dim, end);
    assert rest.idx[0] == s.idx[i] && rest.events[0] == s.events[i];
    ScanHead(c, dim, end);
    assert c[..s.idx[i].recordLen] == b[s.idx[i].fileOffset - at..End(s.idx[i]) - at];
  }

  /** The first entry of a scan names the head of what was scanned, and reads back as the first event. */
  lemma ScanHead(c: Bytes, dim: u16, at: nat)
    requires at + |c| <= MAX_FILE && ScanLog(c, dim, at).idx != []
    ensures var ev, r := ScanLog(c, dim, at).events[0], ScanLog(c, dim, at).idx[0];
            && r.eventId == ev.id && r.createdAt == ev.createdAt && Representable(r.createdAt)
            && r.fileOffset == ev.fileOffset == at && r.recordLen <= |c|
            && DecodeEvent(c[..r.recordLen], dim) == Ok((ev.(fileOffset := 0), r.recordLen))
  {
    hide ScanLog, DecodeEvent, Representable;
    ScanUnfold(c, dim, at);
    var (ev, n) := DecodeEvent(c, dim).value;
    DecodeCut(c, dim, n);
    DecodedShape(c, dim);
  }

  lemma DecodedShape(b: Bytes, dim: u16)
    requires DecodeEvent(b, dim).Ok?
    ensures DecodeEvent(b, dim).value.0.fileOffset == 0
    ensures Representable(DecodeEvent(b, dim).value.0.createdAt)
  {
    hide ReadFixed, ReadRefs, ReadVector, DecodeUtf8;
  }

  /** An index file written from a scan reads back as the scan's entries. */
  lemma ReadIdxOfScan(recs: seq<IdxRecord>)
    requires forall i | 0 <= i < |recs| :: Representable(recs[i].createdAt)
    ensures ReadIdxFile(IdxFile(recs)) == recs
  {
    hide IdxFile, IdxBytes, DecodeIdx;
    forall i | 0 <= i < |recs| ensures IdxSlot(IdxFile(recs), i) == recs[i] {
      IdxFileAt(recs, i);
      DecodeIdxBytes(recs[i], []);
      assert IdxBytes(recs[i]) + [] == IdxBytes(recs[i]);
    }
  }

  /** Loading through a scan's own index yields the scan's events. */
  lemma {:induction false} LoadScan(events: FileBytes, dim: u16, k: nat)
    requires k <= |ScanLog(events, dim, 0).idx|
    ensures Load(events, ScanLog(events, dim, 0).idx[..k], dim) == Ok(ScanLog(events, dim, 0).events[..k])
  {
    hide ScanLog, DecodeEvent;
    var s := ScanLog(events, dim, 0);
    if k == 0 {
    } else {
      LoadScan(events, dim, k - 1);
      ScanEntry(events, dim, 0, k - 1);
      assert s.idx[..k][..k - 1] == s.idx[..k - 1];
      assert s.events[..k] == s.events[..k - 1] + [s.events[k - 1]];
    }
  }

  // ── Consistent disks ────────────────────────────────────────────────────────

  /** The decodable part of events.bin, and the index file that describes all of it. */
  function Kept(events: FileBytes, dim: u16): FileBytes {
    events[..ScanLog(events, dim, 0).clean]
  }

  function FullIdx(events: FileBytes, dim: u16): (b: Bytes)
    ensures Aligned(b)
  {
    FullIdxSize(events, dim);
    IdxFile(ScanLog(events, dim, 0).idx)
  }

  lemma FullIdxSize(events: FileBytes, dim: u16)
    ensures Aligned(IdxFile(ScanLog(events, dim, 0).idx))
  {
    hide ScanLog, IdxFile;
  }

  /** How many whole entries an index file has, and the part that holds them. */
  function Indexed(idx: Bytes): nat {
    |idx| / IDX_RECORD_SIZE
  }

  function Whole(idx: Bytes): (w: Bytes)
    ensures Aligned(w) && w <= idx && Indexed(w) == Indexed(idx)
    ensures Aligned(idx) ==> w == idx
  {
    idx[..Indexed(idx) * IDX_RECORD_SIZE]
  }

  /** What a store leaves on disk at any moment: ids count up from 1, and the whole entries of
      events.idx are an initial part of the index of what can be decoded from events.bin. */
  predicate Consistent(events: FileBytes, idx: Bytes, dim: u16) {
    Sequential(ScanLog(events, dim, 0).events) && Whole(idx) <= FullIdx(events, dim)
  }

  /** Additionally nothing is torn and nothing is missing from the index. */
  predicate Clean(events: FileBytes, idx: Bytes, dim: u16) {
    Sequential(ScanLog(events, dim, 0).events) && idx == FullIdx(events, dim) && events == Kept(events, dim)
  }

  lemma ScanTimes(events: FileBytes, dim: u16)
    ensures forall i | 0 <= i < |ScanLog(events, dim, 0).idx| :: Representable(ScanLog(events, dim, 0).idx[i].createdAt)
  {
    forall i | 0 <= i < |ScanLog(events, dim, 0).idx| ensures Representable(ScanLog(events, dim, 0).idx[i].createdAt) {
      ScanEntry(events, dim, 0, i);
    }
  }

  /** The entries present on a consistent disk end where the scan says they do. */
  lemma CoveredOfConsistent(events: FileBytes, idx: Bytes, dim: u16)
    requires Consistent(events, idx, dim) && Aligned(idx)
    ensures var s := ScanLog(events, dim, 0); var m := |idx| / IDX_RECORD_SIZE;
            && m <= |s.idx| && idx == IdxFile(s.idx[..m])
            && CoveredEnd(idx) == Covered(s, m, 0)
  {
    hide ScanLog, IdxFile, IdxSlot;
    var s, m := ScanLog(events, dim, 0), |idx| / IDX_RECORD_SIZE;
    assert idx == IdxFile(s.idx)[..m * IDX_RECORD_SIZE];
    IdxFilePrefix(s.idx, m);
    assert idx == IdxFile(s.idx[..m]);
    ScanTimes(events, dim);
    ReadIdxOfScan(s.idx[..m]);
    assert m > 0 ==> ReadIdxFile(idx)[m - 1] == s.idx[m - 1];
  }

  /** Repair of a consistent disk: never refused, nothing decodable lost, index complete. */
  lemma RepairConsistent(events: FileBytes, idx: Bytes, dim: u16)
    requires Consistent(events, idx, dim) && Aligned(idx)
    ensures var s := ScanLog(events, dim, 0);
            && |idx| / IDX_RECORD_SIZE <= |s.idx|
            && Repair(events, idx, dim)
               == Ok(Repaired(Kept(events, dim), FullIdx(events, dim), s.idx[|idx| / IDX_RECORD_SIZE..]))
  {
    hide ScanLog, CoveredEnd, IdxFile;
    var s, m := ScanLog(events, dim, 0), |idx| / IDX_RECORD_SIZE;
    CoveredOfConsistent(events, idx, dim);
    ScanResumes(events, dim, 0, m);
    IdxFileConcat(s.idx[..m], s.idx[m..]);
    assert s.idx[..m] + s.idx[m..] == s.idx;
  }

  /** What repair keeps is clean, scans to the same log, tiles the file, and loads completely. */
  lemma RepairedIsClean(events: FileBytes, dim: u16)
    requires Sequential(ScanLog(events, dim, 0).events)
    ensures Clean(Kept(events, dim), FullIdx(events, dim), dim)
    ensures ScanLog(Kept(events, dim), dim, 0) == ScanLog(events, dim, 0)
    ensures Tiles(ReadIdxFile(FullIdx(events, dim)), 0, |Kept(events, dim)|)
    ensures Load(Kept(events, dim), ReadIdxFile(FullIdx(events, dim)), dim) == Ok(ScanLog(events, dim, 0).events)
  {
    hide ScanLog, Load, ReadIdxFile, Tiles, IdxFile;
    ScanClean(events, dim, 0);
    ScanTimes(events, dim);
    ScanTiles(events, dim, 0);
    var s := ScanLog(events, dim, 0);
    ReadIdxOfScan(s.idx);
    LoadScan(events[..s.clean], dim, |s.idx|);
    assert s.idx[..|s.idx|] == s.idx && s.events[..|s.events|] == s.events;
  }
}
