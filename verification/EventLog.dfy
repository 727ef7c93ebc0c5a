/** The two append-only files as values: what a scan of events.bin finds, and which contents of
    events.idx agree with it. */
module EventLog {
  import opened Prelude
  import opened Format

  /** The largest file the operating system lets a 64-bit offset address. */
  const MAX_FILE: nat := 0x7FFF_FFFF_FFFF_FFFF

  /** What decoding a stretch of events.bin record by record finds: the events with their places,
      the index entries that describe them, and how many bytes they cover. */
  datatype Scan = Scan(events: seq<Event>, idx: seq<IdxRecord>, clean: nat)

  function ScanLog(b: Bytes, dim: u16, at: nat): (s: Scan)
    requires at + |b| <= MAX_FILE
    ensures s.clean <= |b| && |s.events| == |s.idx|
    ensures |s.events| * EVENT_HEADER_SIZE <= s.clean
  {
    match DecodeEvent(b, dim)
    case Err(_) => Scan([], [], 0)
    case Ok((ev, n)) =>
      var rest := ScanLog(b[n..], dim, at + n);
      Join(One(ev, n, at), rest)
  }

  function One(ev: Event, n: u32, at: u64): Scan {
    Scan([ev.(fileOffset := at)], [IdxRecord(ev.id, at, n, ev.createdAt)], n)
  }

  function Join(a: Scan, b: Scan): Scan {
    Scan(a.events + b.events, a.idx + b.idx, a.clean + b.clean)
  }

  lemma JoinAssociative(a: Scan, b: Scan, c: Scan)
    ensures Join(a, Join(b, c)) == Join(Join(a, b), c)
  {
    assert a.events + (b.events + c.events) == (a.events + b.events) + c.events;
    assert a.idx + (b.idx + c.idx) == (a.idx + b.idx) + c.idx;
  }

  lemma JoinEmpty(a: Scan)
    ensures Join(Scan([], [], 0), a) == a == Join(a, Scan([], [], 0))
  {
  }

  function IdxFile(recs: seq<IdxRecord>): (b: Bytes)
    ensures |b| == |recs| * IDX_RECORD_SIZE
  {
    if recs == [] then [] else IdxBytes(recs[0]) + IdxFile(recs[1..])
  }

  function End(r: IdxRecord): nat {
    r.fileOffset + r.recordLen
  }

  /** The entries cover exactly the bytes `from..to`, in order, without gap or overlap. */
  predicate Tiles(idx: seq<IdxRecord>, from: nat, to: nat) {
    if idx == [] then from == to
    else idx[0].fileOffset == from && idx[0].recordLen >= EVENT_HEADER_SIZE && Tiles(idx[1..], End(idx[0]), to)
  }

  lemma {:induction false} TilesEnd(idx: seq<IdxRecord>, from: nat, to: nat)
    requires Tiles(idx, from, to) && idx != []
    ensures End(idx[|idx| - 1]) == to
  {
    if |idx| > 1 {
      TilesEnd(idx[1..], End(idx[0]), to);
    } else {
      assert Tiles(idx[1..], End(idx[0]), to);
    }
  }

  lemma {:induction false} TilesConcat(a: seq<IdxRecord>, b: seq<IdxRecord>, from: nat, to: nat)
    ensures var mid := if a == [] then from else End(a[|a| - 1]);
            Tiles(a + b, from, to) <==> Tiles(a, from, mid) && Tiles(b, mid, to)
  {
    if a == [] {
      assert a + b == b;
    } else {
      TilesConcat(a[1..], b, End(a[0]), to);
      assert (a + b)[1..] == a[1..] + b;
      assert |a| > 1 ==> a[1..][|a[1..]| - 1] == a[|a| - 1];
    }
  }

  // ── Scanning ────────────────────────────────────────────────────────────────

  lemma {:induction false} ScanTiles(b: Bytes, dim: u16, at: nat)
    requires at + |b| <= MAX_FILE
    ensures Tiles(ScanLog(b, dim, at).idx, at, at + ScanLog(b, dim, at).clean)
  {
    hide DecodeEvent;
    var d := DecodeEvent(b, dim);
    if d.Err? {
    } else {
      ScanTiles(b[d.value.1..], dim, at + d.value.1);
    }
  }

  /** A scan goes on behind a stretch that it covers completely. */
  lemma {:induction false} ScanConcat(a: Bytes, b: Bytes, dim: u16, at: nat)
    requires at + |a| + |b| <= MAX_FILE
    requires ScanLog(a, dim, at).clean == |a|
    ensures ScanLog(a + b, dim, at) == Join(ScanLog(a, dim, at), ScanLog(b, dim, at + |a|))
  {
    hide ScanLog, Join, One, DecodeEvent;
    ScanUnfold(a, dim, at);
    if a == [] {
      assert a + b == b;
      EmptyScan(dim, at);
      JoinEmpty(ScanLog(b, dim, at));
    } else {
      NonemptyScan(a, dim, at);
      DecodeExtends(a, dim, b);
      ScanUnfold(a + b, dim, at);
      var (ev, n) := DecodeEvent(a, dim).value;
      assert (a + b)[n..] == a[n..] + b;
      CleanOne(ev, n, at, ScanLog(a[n..], dim, at + n));
      assert at + n + |a[n..]| == at + |a|;
      ScanConcat(a[n..], b, dim, at + n);
      JoinAssociative(One(ev, n, at), ScanLog(a[n..], dim, at + n), ScanLog(b, dim, at + |a|));
    }
  }

  lemma NonemptyScan(a: Bytes, dim: u16, at: nat)
    requires at + |a| <= MAX_FILE && ScanLog(a, dim, at).clean > 0
    ensures DecodeEvent(a, dim).Ok?
  {
    hide DecodeEvent;
  }

  lemma CleanOne(ev: Event, n: u32, at: u64, b: Scan)
    ensures Join(One(ev, n, at), b).clean == n + b.clean
  {
  }

  lemma ScanUnfold(b: Bytes, dim: u16, at: nat)
    requires at + |b| <= MAX_FILE
    ensures match DecodeEvent(b, dim)
            case Err(_) => ScanLog(b, dim, at) == Scan([], [], 0)
            case Ok((ev, n)) => ScanLog(b, dim, at) == Join(One(ev, n, at), ScanLog(b[n..], dim, at + n))
  {
  }

  /** Cutting off part of what a scan could not decode changes nothing. */
  lemma {:induction false} ScanCut(b: Bytes, dim: u16, at: nat, k: nat)
    requires at + |b| <= MAX_FILE && ScanLog(b, dim, at).clean <= k <= |b|
    ensures ScanLog(b[..k], dim, at) == ScanLog(b, dim, at)
  {
    hide ScanLog, Join, One, DecodeEvent;
    ScanUnfold(b, dim, at);
    ScanUnfold(b[..k], dim, at);
    if DecodeEvent(b[..k], dim).Ok? {
      assert b == b[..k] + b[k..];
      DecodeExtends(b[..k], dim, b[k..]);
    }
    if DecodeEvent(b, dim).Ok? {
      var (ev, n) := DecodeEvent(b, dim).value;
      CleanOne(ev, n, at, ScanLog(b[n..], dim, at + n));
      DecodeCut(b, dim, k);
      ScanCut(b[n..], dim, at + n, k - n);
      assert b[..k][n..] == b[n..][..k - n];
    }
  }

  lemma DecodeCut(b: Bytes, dim: u16, k: nat)
    requires DecodeEvent(b, dim).Ok? && DecodeEvent(b, dim).value.1 <= k <= |b|
    ensures DecodeEvent(b[..k], dim) == DecodeEvent(b, dim)
  {
    SameFixed(b, b[..k]);
    assert b == b[..k] + b[k..];
    DecodeExtends(b[..k], dim, b[k..]);
  }

  /** What a scan covers is covered again when scanned alone. */
  lemma ScanClean(b: Bytes, dim: u16, at: nat)
    requires at + |b| <= MAX_FILE
    ensures ScanLog(b[..ScanLog(b, dim, at).clean], dim, at) == ScanLog(b, dim, at)
  {
    ScanCut(b, dim, at, ScanLog(b, dim, at).clean);
  }

  /** One encoded record scans as that record, a proper prefix of it as nothing. */
  lemma ScanRecord(ev: Event, dim: u16, at: nat)
    requires Encodable(ev, dim) && at + EventRecordSize(ev, dim) <= MAX_FILE
    ensures ScanLog(EventBytes(ev, dim), dim, at) == One(Durable(ev), EventRecordSize(ev, dim), at)
  {
    var b := EventBytes(ev, dim);
    assert b + [] == b;
    DecodeEncoded(ev, dim, []);
    hide EventBytes, DecodeEvent, Durable;
    assert b[|b|..] == [];
    EmptyScan(dim, at + |b|);
    ScanUnfold(b, dim, at);
    JoinEmpty(One(Durable(ev), EventRecordSize(ev, dim), at));
  }

  lemma EmptyScan(dim: u16, at: nat)
    requires at <= MAX_FILE
    ensures ScanLog([], dim, at) == Scan([], [], 0)
  {
  }

  /** A scan is the longest way to read records: any run of decodable records at the head of `b`
      is a prefix of it. Nothing complete is lost before the first undecodable byte. */
  lemma ScanIsLongest(a: Bytes, b: Bytes, dim: u16, at: nat)
    requires at + |a| + |b| <= MAX_FILE
    requires ScanLog(a, dim, at).clean == |a|
    ensures ScanLog(a, dim, at).events <= ScanLog(a + b, dim, at).events
    ensures |a| <= ScanLog(a + b, dim, at).clean
    ensures DecodeEvent((a + b)[ScanLog(a + b, dim, at).clean..], dim).Err?
  {
    ScanConcat(a, b, dim, at);
    ScanStops(a + b, dim, at);
  }

  lemma {:induction false} ScanStops(b: Bytes, dim: u16, at: nat)
    requires at + |b| <= MAX_FILE
    ensures DecodeEvent(b[ScanLog(b, dim, at).clean..], dim).Err?
  {
    hide ScanLog, DecodeEvent, Join;
    ScanUnfold(b, dim, at);
    var d := DecodeEvent(b, dim);
    if d.Ok? {
      var n := d.value.1;
      CleanOne(d.value.0, n, at, ScanLog(b[n..], dim, at + n));
      ScanStops(b[n..], dim, at + n);
      assert b[ScanLog(b, dim, at).clean..] == b[n..][ScanLog(b[n..], dim, at + n).clean..];
    } else {
      assert b[0..] == b;
    }
  }

  // ── Index files ─────────────────────────────────────────────────────────────

  lemma {:induction false} IdxFileConcat(a: seq<IdxRecord>, b: seq<IdxRecord>)
    ensures IdxFile(a + b) == IdxFile(a) + IdxFile(b)
  {
    hide IdxBytes;
    if a == [] {
      assert a + b == b;
    } else {
      IdxFileConcat(a[1..], b);
      assert (a + b)[1..] == a[1..] + b;
      assert IdxBytes(a[0]) + (IdxFile(a[1..]) + IdxFile(b)) == IdxFile(a) + IdxFile(b);
    }
  }

  /** The first `k` entries are the first `k` slots of the file. */
  lemma IdxFilePrefix(recs: seq<IdxRecord>, k: nat)
    requires k <= |recs|
    ensures IdxFile(recs[..k]) == IdxFile(recs)[..k * IDX_RECORD_SIZE]
    ensures IdxFile(recs[k..]) == IdxFile(recs)[k * IDX_RECORD_SIZE..]
  {
    assert recs == recs[..k] + recs[k..];
    IdxFileConcat(recs[..k], recs[k..]);
  }

  /** The entry a reader finds in slot `i`. */
  lemma IdxFileAt(recs: seq<IdxRecord>, i: nat)
    requires i < |recs|
    ensures IdxFile(recs)[i * IDX_RECORD_SIZE..(i + 1) * IDX_RECORD_SIZE] == IdxBytes(recs[i])
  {
    IdxFilePrefix(recs, i);
    IdxFilePrefix(recs, i + 1);
    assert recs[i..][0] == recs[i];
    assert IdxFile(recs[i..])[..IDX_RECORD_SIZE] == IdxBytes(recs[i]);
  }
}
