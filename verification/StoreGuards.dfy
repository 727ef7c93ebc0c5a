/** Whether a store opens, told from its files alone: what the two guards of an open decide, when they
    decide it, and runs that end at each of them or pass them and fail. */
module StoreGuards {
  import opened Prelude
  import opened Utf8
  import opened Format
  import opened EventLog
  import opened EventGraph
  import opened Recovery
  import opened StoreRuns
  import opened StoreSafety
  import opened StoreStranding

  // ── The files decide ────────────────────────────────────────────────────────

  /** events.idx is an initial part of the index that re-decoding events.bin from the start would give. */
  predicate Described(img: Image) {
    img.meta.None? ||
    (ReadMeta(img.meta.value).Ok? && img.idx <= FullIdx(img.events, ReadMeta(img.meta.value).value.vectorDim))
  }

  lemma DeadIsNotDescribed(events: FileBytes, idx: Bytes, d: u16, k: nat)
    requires DeadEntry(events, idx, d, k) && idx <= FullIdx(events, d)
    ensures !Aligned(idx)
  {
    hide ScanLog, IdxFile, IdxSlot, DecodeEvent;
    if Aligned(idx) {
      SlotOfFull(events, idx, d, k);
      ScanEntry(events, d, 0, k);
    }
  }

  lemma StrandedIsNotDescribed(w: World, d: u16)
    requires StrandedAt(w, d) && Aligned(w.medium.image.idx)
    ensures !Described(w.medium.image)
  {
    hide DeadEntry, FullIdx, ReadMeta;
    var events, idx, k :| StrandedBy(w.medium, d, events, idx, k);
    var img := w.medium.image;
    assert img.events in w.medium.events && img.idx in w.medium.idx;
    DeadStays(events, idx, d, k, img.events, img.idx);
    if Described(img) {
      DeadIsNotDescribed(img.events, img.idx, d, k);
    }
  }

  lemma LiveIsDescribed(w: World, d: u16)
    requires LiveAt(w, d) && Aligned(w.medium.image.idx)
    ensures Described(w.medium.image)
  {
    hide ScanLog, ReadMeta, Secured, NoneLost, GoodHistory, LiveSession, FullIdx;
    assert GoodImage(w.medium.image, d);
  }

  lemma DescribedUnlessStranded(w: World)
    requires Inv(w) && Aligned(w.medium.image.idx)
    ensures Described(w.medium.image) <==> !w.stranded
  {
    hide LiveAt, StrandedAt, FullIdx, ReadMeta;
    if w.medium.image.meta.Some? {
      var d: u16 :| InvAt(w, d);
      hide Described;
      if w.stranded {
        StrandedIsNotDescribed(w, d);
      } else {
        LiveIsDescribed(w, d);
      }
    }
  }

  /** Whatever the run, open succeeds exactly when no index entry is torn and the index describes the head
      of events.bin. */
  lemma OpensIffDescribed(ws: seq<World>, steps: seq<Step>, n: nat, dim: u16, now: Time)
    requires Run(ws, steps) && n < |ws|
    ensures var img := ws[n].medium.image; Open(img, dim, now).1.Ok? <==> Aligned(img.idx) && Described(img)
  {
    hide Next, Open, Inv, Described;
    RunKeepsInv(ws, steps, n);
    ReopenGood(ws[n], dim, now);
    if Aligned(ws[n].medium.image.idx) {
      DescribedUnlessStranded(ws[n]);
    }
  }

  // ── What the two guards decide ──────────────────────────────────────────────

  /** The size of events.idx is a multiple of an entry, and its last entry ends within events.bin. */
  predicate GuardsPass(img: Image) {
    Aligned(img.idx) && CoveredEnd(img.idx) <= |img.events|
  }

  predicate Ahead(img: Image) {
    |img.events| < CoveredEnd(Whole(img.idx))
  }

  /** The death of a process while it cuts undecodable bytes off events.bin. */
  predicate CutDeath(w: World, step: Step) {
    step.OpenDeath? && step.left.image.events != w.medium.image.events
  }

  predicate CutInterrupted(ws: seq<World>, steps: seq<Step>, n: nat)
    requires n <= |steps| <= |ws|
  {
    exists k | 0 <= k < n :: CutDeath(ws[k], steps[k])
  }

  /** The medium only falls back to beginnings of events.bin, and once it has lost an indexed record the
      index reaches beyond events.bin for good. */
  ghost predicate Ordered(w: World) {
    && (forall x | x in w.medium.events :: x <= w.medium.image.events)
    && (w.stranded ==> w.session.None? && w.medium == Settled(w.medium.image) && Ahead(w.medium.image)
                       && w.medium.image.meta.Some?)
  }

  lemma {:induction false} TilesEnds(idx: seq<IdxRecord>, from: nat, to: nat, i: nat, j: nat)
    requires Tiles(idx, from, to) && i <= j < |idx|
    ensures from <= End(idx[i]) <= End(idx[j])
  {
    if j == 0 {
    } else {
      TilesEnds(idx[1..], End(idx[0]), to, if i == 0 then 0 else i - 1, j - 1);
      assert idx[1..][j - 1] == idx[j] && (i > 0 ==> idx[1..][i - 1] == idx[i]);
    }
  }

  /** A beginning of events.bin that lost an indexed record ends before the index does. */
  lemma LostIsAhead(events: FileBytes, left: FileBytes, idx: Bytes, d: u16)
    requires Behind(left, events, d) && left <= events && Whole(idx) <= FullIdx(events, d)
    requires |ScanLog(left, d, 0).idx| < Indexed(idx)
    ensures |left| < CoveredEnd(Whole(idx))
  {
    hide ScanLog, IdxFile, DecodeEvent, IdxSlot;
    var s, k, last := ScanLog(events, d, 0), |ScanLog(left, d, 0).idx|, Indexed(idx) - 1;
    StrandedEntry(events, left, idx, d);
    SlotOfFull(events, idx, d, k);
    SlotOfFull(events, idx, d, last);
    SlotOfFull(events, Whole(idx), d, last);
    ScanEntry(events, d, 0, k);
    assert forall i, j | 0 <= i <= j <= |left| :: left[i..j] == events[i..j];
    ScanTiles(events, d, 0);
    TilesEnds(s.idx, 0, s.clean, k, last);
  }

  lemma PowerLossOrders(w: World, image: Image, w': World)
    requires Inv(w) && Ordered(w) && w.medium.image.meta.Some? && Next(w, PowerLoss(image), w')
    ensures Ordered(w')
  {
    hide ScanLog, ReadMeta, CoveredEnd, FullIdx, Whole, Indexed, StrandedAt, GoodHistory, Secured, NoneLost, LiveSession;
    if w'.stranded && !w.stranded {
      var d: u16 :| InvAt(w, d);
      assert GoodImage(w.medium.image, d) && Behind(image.events, w.medium.image.events, d);
      LostIsAhead(w.medium.image.events, image.events, image.idx, d);
    }
  }

  /** While the index is ahead no open touches a file. */
  lemma AheadStays(img: Image, dim: u16, now: Time)
    requires img.meta.Some? && Ahead(img)
    ensures Open(img, dim, now).0 == img && Open(img, dim, now).1.Err?
  {
    hide ReadMeta, Load, RepairFrom;
  }

  lemma AheadStaysDead(m: Medium, dim: u16, now: Time, left: Medium)
    requires m.image.meta.Some? && Ahead(m.image) && OpenLeaves(m, dim, now, left)
    ensures left == m
  {
    hide ReadMeta, RepairFrom, RepairPasses;
  }

  lemma OpenDeathOrders(m: Medium, dim: u16, now: Time, left: Medium)
    requires OpenLeaves(m, dim, now, left) && left.image.events == m.image.events
    requires forall x | x in m.events :: x <= m.image.events
    ensures forall x | x in left.events :: x <= left.image.events
  {
    hide Repair, ReadMeta;
  }

  lemma AppendDeathOrders(m: Medium, s: Session, p: Event, left: Medium)
    requires Encodable(p, s.header.vectorDim) && AppendLeaves(m, s, p, left)
    requires forall x | x in m.events :: x <= m.image.events
    ensures forall x | x in left.events :: x <= left.image.events
  {
    hide EventBytes, IdxBytes;
    forall x | x in m.events ensures x <= left.image.events {
      assert x <= m.image.events <= left.image.events;
    }
  }

  /** Every step keeps that order, unless a process dies while cutting off bytes. */
  lemma StepKeepsOrder(w: World, step: Step, w': World)
    requires Inv(w) && Ordered(w) && Next(w, step, w') && !CutDeath(w, step)
    ensures Ordered(w')
  {
    hide Inv, Open, OpenLeaves, Append, AppendLeaves, Ahead, Strands, MetaBytes, SnapshotHeader, Prepare, Encodable;
    match step
    case OpenStep(dim, now) =>
      if w.stranded {
        AheadStays(w.medium.image, dim, now);
      }
    case OpenDeath(dim, now, left) =>
      if w.stranded {
        AheadStaysDead(w.medium, dim, now, left);
      } else {
        OpenDeathOrders(w.medium, dim, now, left);
      }
    case AppendDeath(ev, now, left) =>
      AppendDeathOrders(w.medium, w.session.value, Prepare(ev, w.session.value, now, |w.medium.image.events|), left);
    case PowerLoss(image) =>
      if w.medium.image.meta.Some? {
        PowerLossOrders(w, image, w');
      } else {
        FreshLosesNothing(w, image);
      }
    case _ =>
  }

  lemma FreshLosesNothing(w: World, image: Image)
    requires Inv(w) && w.medium.image.meta.None? && Survives(w.medium, image)
    ensures image == w.medium.image && !Strands(image) && !w.stranded
  {
  }

  lemma {:induction false} RunKeepsOrder(ws: seq<World>, steps: seq<Step>, n: nat)
    requires Run(ws, steps) && n < |ws| && !CutInterrupted(ws, steps, n)
    ensures Ordered(ws[n])
  {
    hide Next, Inv, CutDeath, Ahead;
    if n == 0 {
    } else {
      RunKeepsInv(ws, steps, n - 1);
      RunKeepsOrder(ws, steps, n - 1);
      StepKeepsOrder(ws[n - 1], steps[n - 1], ws[n]);
    }
  }

  /** Unless a process died while cutting undecodable bytes off events.bin, the two guards alone decide
      whether a store opens. */
  lemma GuardsDecide(ws: seq<World>, steps: seq<Step>, n: nat, dim: u16, now: Time)
    requires Run(ws, steps) && n < |ws| && !CutInterrupted(ws, steps, n)
    ensures var img := ws[n].medium.image; Open(img, dim, now).1.Ok? <==> GuardsPass(img)
  {
    hide Next, Inv, CutInterrupted, Open, CoveredEnd;
    RunKeepsInv(ws, steps, n);
    RunKeepsOrder(ws, steps, n);
    var w := ws[n];
    ReopenGood(w, dim, now);
    OpenNeedsGuards(w.medium.image, dim, now);
  }

  /** Without the guards no open succeeds. */
  lemma OpenNeedsGuards(img: Image, dim: u16, now: Time)
    ensures Open(img, dim, now).1.Ok? ==> GuardsPass(img)
  {
    hide ReadMeta, Load, RepairFrom, MetaBytes, ReadIdxFile;
  }

  // ── Runs that end at a guard, or pass both and fail ─────────────────────────

  /** An event with one character of text. */
  const WORDY := PLAIN.(content := A)
  const A: Text := AText()

  function AText(): (t: Text)
    ensures |t| == 1
  {
    AIsText();
    [0x41]
  }

  lemma AIsText()
    ensures Valid([0x41])
  {
  }

  lemma WordyRecord(s: Session)
    requires s.header.vectorDim == 0
    ensures var p := Prepare(WORDY, s, 1, 0);
            && Encodable(p, 0) && |EventBytes(p, 0)| == EVENT_HEADER_SIZE + 1
            && DecodeEvent(EventBytes(p, 0)[..EVENT_HEADER_SIZE], 0).Err?
  {
    hide EventBytes, DecodeEvent, Build;
    var p := Prepare(WORDY, s, 1, 0);
    ProperPrefixRejected(p, 0, EVENT_HEADER_SIZE);
  }

  lemma PlainRecord(s: Session, n: u64)
    requires s.header.vectorDim == 0
    ensures var p := Prepare(PLAIN, s, 1, n); Encodable(p, 0) && |EventBytes(p, 0)| == EVENT_HEADER_SIZE
  {
    hide EventBytes, Build;
  }

  /** A process dies within the record of a wordy event on an empty store. */
  lemma DieTorn(w: World) returns (w': World, torn: FileBytes)
    requires Inv(w) && !w.stranded && w.session.Some? && w.session.value.header.vectorDim == 0
    requires w.medium.image.events == []
    ensures |torn| == EVENT_HEADER_SIZE && DecodeEvent(torn, 0).Err?
    ensures w'.medium == Unsynced(w.medium, torn) && w'.session.None? && !w'.stranded
    ensures Next(w, AppendDeath(WORDY, 1, w'.medium), w') && Inv(w')
  {
    hide Inv, EventBytes, IdxBytes, Build, DecodeEvent, Prepare;
    var s, m := w.session.value, w.medium;
    WordyRecord(s);
    var p := Prepare(WORDY, s, 1, 0);
    torn := EventBytes(p, 0)[..EVENT_HEADER_SIZE];
    assert Sound(m) by { SoundAlways(w); }
    w' := w.(medium := Unsynced(m, torn), session := None, begun := w.begun + {Submission(WORDY, 1, p)},
             cutAppends := w.cutAppends + 1);
    StepKeepsInv(w, AppendDeath(WORDY, 1, w'.medium), w');
  }

  lemma SoundAlways(w: World)
    requires Inv(w)
    ensures Sound(w.medium)
  {
    hide ScanLog, GoodImage, GoodHistory, Secured, NoneLost, LiveSession, DeadEntry;
  }

  predicate ZeroDim(img: Image) {
    img.meta.Some? && ReadMeta(img.meta.value).Ok? && ReadMeta(img.meta.value).value.vectorDim == 0
  }

  lemma SessionZeroDim(w: World)
    requires Inv(w) && !w.stranded && w.session.Some? && w.session.value.header.vectorDim == 0
    ensures ZeroDim(w.medium.image)
  {
    hide ScanLog, GoodHistory, Secured, NoneLost, GoodSession;
  }

  lemma LiveAtZero(w: World)
    requires Inv(w) && !w.stranded && ZeroDim(w.medium.image)
    ensures LiveAt(w, 0)
  {
    hide ScanLog, GoodHistory, Secured, NoneLost, GoodSession, LiveSession;
    var d: u16 :| InvAt(w, d);
    assert GoodImage(w.medium.image, d);
  }

  /** The next one dies when it has cut the torn record off and not yet synced that. */
  lemma DieCutting(w: World, torn: FileBytes) returns (w': World)
    requires Inv(w) && !w.stranded && w.session.None? && ZeroDim(w.medium.image) && w.medium.image.idx == []
    requires w.medium.image.events == torn != [] && DecodeEvent(torn, 0).Err?
    ensures w' == w.(medium := w'.medium) && w'.medium.image == w.medium.image.(events := [])
    ensures torn in w'.medium.events
    ensures Next(w, OpenDeath(0, 1, w'.medium), w') && CutDeath(w, OpenDeath(0, 1, w'.medium)) && Inv(w')
  {
    hide Inv, ReadMeta, DecodeEvent;
    SoundAlways(w);
    var m := w.medium;
    var left := Medium(m.image.(events := []), m.events + EventSpan([], torn), m.idx);
    assert RepairLeaves(m, 0, 1, left) by { NothingKept(m, left, torn); }
    w' := w.(medium := left);
    StepKeepsInv(w, OpenDeath(0, 1, left), w');
  }

  lemma NothingKept(m: Medium, left: Medium, torn: FileBytes)
    requires Sound(m) && ZeroDim(m.image) && m.image.idx == [] && m.image.events == torn && DecodeEvent(torn, 0).Err?
    requires left == Medium(m.image.(events := []), m.events + EventSpan([], torn), m.idx)
    ensures RepairLeaves(m, 0, 1, left)
  {
    hide ReadMeta, DecodeEvent, IdxFile, MetaBytes;
    assert torn[0..] == torn;
    assert torn[..0] == [];
    assert [] <= torn;
    var r := Repair(torn, [], 0);
    assert r == Ok(Repaired([], [], []));
  }

  /** Reopening finds an empty store and nothing to cut; the torn record may still come back. */
  lemma ReopenCut(w: World) returns (w': World)
    requires Inv(w) && !w.stranded && w.session.None? && ZeroDim(w.medium.image)
    requires w.medium.image.events == w.medium.image.idx == []
    ensures w' == w.(session := w'.session) && w'.session.Some? && w'.session.value.header.vectorDim == 0
    ensures Next(w, OpenStep(0, 1), w') && Inv(w')
  {
    hide Inv, Open, ReadMeta, Secured, NoneLost, GoodHistory, LiveSession, ScanLog, GoodSession, IdxFile;
    LiveAtZero(w);
    assert GoodImage(w.medium.image, 0);
    GoodImageOpens(w.medium.image, 0, 1, 0);
    NothingToCut();
    var (m, r) := Opened(w.medium, 0, 1);
    w' := w.(medium := m, session := Some(r.value));
    StepKeepsInv(w, OpenStep(0, 1), w');
  }

  lemma NothingToCut()
    ensures Kept([], 0) == [] && FullIdx([], 0) == []
  {
    EmptyScan(0, 0);
  }

  /** The torn record under the entry of the shorter one passes both guards, and does not load. */
  lemma LostCutOpens(img: Image, s: Session, torn: FileBytes, dim: u16, now: Time)
    requires GoodImage(img, 0) && GoodSession(img, s) && s.header.vectorDim == 0 && img.events == img.idx == []
    requires |torn| == EVENT_HEADER_SIZE && DecodeEvent(torn, 0).Err? && Append(img, s, PLAIN, 1).Stored?
    ensures var left := Image(img.meta, torn, Append(img, s, PLAIN, 1).image.idx);
            && GuardsPass(left) && Open(left, dim, now).1.Err? && Open(left, dim, now).1.error.BadFormat?
  {
    hide ScanLog, EventBytes, IdxBytes, Build, Sequential, DurableLog, ReadMeta, DecodeEvent, Load, IdxSlot, IdxFile;
    AppendGood(img, s, PLAIN, 1);
    var img' := Append(img, s, PLAIN, 1).image;
    OneEntry(img, s);
    var idx := img'.idx;
    assert torn[EVENT_HEADER_SIZE..] == [];
    EmptyScan(0, EVENT_HEADER_SIZE);
    assert idx + IdxFile([]) == idx && torn[..EVENT_HEADER_SIZE] == torn;
    var rec := IdxSlot(idx, 0);
    assert ReadIdxFile(idx) == [rec];
    LoadsAlone(torn, rec);
  }

  lemma OneEntry(img: Image, s: Session)
    requires GoodImage(img, 0) && GoodSession(img, s) && s.header.vectorDim == 0 && img.events == img.idx == []
    requires Append(img, s, PLAIN, 1).Stored?
    ensures var idx := Append(img, s, PLAIN, 1).image.idx;
            && |idx| == IDX_RECORD_SIZE && IdxSlot(idx, 0).fileOffset == 0 && End(IdxSlot(idx, 0)) == EVENT_HEADER_SIZE
  {
    hide EventBytes, IdxBytes, Build, DecodeIdx, ScanLog, ReadMeta;
    PlainRecord(s, 0);
    var p := Prepare(PLAIN, s, 1, 0);
    var rec := EntryOf(p, EVENT_HEADER_SIZE);
    DecodeIdxBytes(rec, []);
    assert IdxBytes(rec) + [] == IdxBytes(rec) == [] + IdxBytes(rec);
    assert IdxBytes(rec)[0..IDX_RECORD_SIZE] == IdxBytes(rec);
  }

  lemma LoadsAlone(torn: FileBytes, rec: IdxRecord)
    requires rec.fileOffset == 0 && End(rec) == |torn| && DecodeEvent(torn, 0).Err?
    ensures Load(torn, [rec], 0).Err? && Load(torn, [rec], 0).error.BadFormat?
  {
    hide DecodeEvent;
    assert torn[0..|torn|] == torn;
    assert [rec][..0] == [];
  }

  /** A run after which both guards pass and open fails all the same: a process dies within a record, the
      next one while it cuts that off, a third one before it has synced a shorter record in its place, and
      the power fails after a fourth one has indexed that. */
  lemma LostCutRun(dim: u16, now: Time) returns (ws: seq<World>, steps: seq<Step>)
    ensures Run(ws, steps) && |steps| == 7 && CutInterrupted(ws, steps, 7)
    ensures var img := ws[7].medium.image;
            && GuardsPass(img) && Open(img, dim, now).1.Err? && Open(img, dim, now).1.error.BadFormat?
  {
    hide Open, Next, Inv, Append, DecodeEvent, GuardsPass, CutDeath, LiveAt, ReadMeta;
    var w0 := World(Settled(Image(None, [], [])), None, map[], {}, 0, false);
    var w1 := FirstOpen(w0);
    SessionZeroDim(w1);
    var w2, torn := DieTorn(w1);
    var w3 := DieCutting(w2, torn);
    var w4 := ReopenCut(w3);
    var w5, w6, w7 := StrandOn(w4, torn, dim, now);
    ws := [w0, w1, w2, w3, w4, w5, w6, w7];
    steps := [OpenStep(0, 1), AppendDeath(WORDY, 1, w2.medium), OpenDeath(0, 1, w3.medium), OpenStep(0, 1),
              AppendDeath(PLAIN, 1, w5.medium), OpenStep(0, 1), PowerLoss(w7.medium.image)];
    assert CutDeath(ws[2], steps[2]);
  }

  lemma StrandOn(w: World, torn: FileBytes, dim: u16, now: Time) returns (w1: World, w2: World, w3: World)
    requires Inv(w) && !w.stranded && w.session.Some? && w.session.value.header.vectorDim == 0
    requires w.medium.image.events == w.medium.image.idx == [] && torn in w.medium.events
    requires |torn| == EVENT_HEADER_SIZE && DecodeEvent(torn, 0).Err?
    ensures Next(w, AppendDeath(PLAIN, 1, w1.medium), w1) && Next(w1, OpenStep(0, 1), w2)
    ensures Next(w2, PowerLoss(w3.medium.image), w3)
    ensures var img := w3.medium.image;
            && GuardsPass(img) && Open(img, dim, now).1.Err? && Open(img, dim, now).1.error.BadFormat?
  {
    hide Open, Append, DecodeEvent, GuardsPass, ZeroDim, LiveAt, Inv, Strands, OpenLeaves, AppendLeaves, Opened;
    SessionZeroDim(w);
    LiveAtZero(w);
    var m, s := w.medium, w.session.value;
    PlainIsStored(m.image, s);
    var img := Append(m.image, s, PLAIN, 1).image;
    AppendKeepsMeta(m.image, s, PLAIN, 1);
    w1 := DieUnsynced(w, 0, PLAIN, 1);
    AppendDeathKeeps(w, PLAIN, 1, w1.medium, w1, 0);
    w2 := ReopenUnsynced(w, 0, PLAIN, 1, 0, w1);
    var left := m.image.(events := torn, idx := img.idx);
    w3 := w2.(medium := Settled(left), session := None, stranded := w2.stranded || Strands(left));
    LiveParts(w);
    LostCutOpens(m.image, s, torn, dim, now);
  }

  lemma LiveParts(w: World)
    requires LiveAt(w, 0) && w.session.Some?
    ensures GoodImage(w.medium.image, 0) && GoodSession(w.medium.image, w.session.value)
  {
    hide ScanLog, GoodHistory, Secured, NoneLost, GoodImage, GoodSession, Behind;
  }

  /** An index entry is torn: open reports it, for good. */
  lemma TornRun(dim: u16, now: Time) returns (ws: seq<World>, steps: seq<Step>)
    ensures Run(ws, steps) && |steps| == 3 && 1 in ws[3].acked
    ensures var img := ws[3].medium.image;
            && !Aligned(img.idx) && Open(img, dim, now) == (img, Err(IdxMisaligned(|img.idx|)))
  {
    hide Open, Next, Inv, Append;
    var w0 := World(Settled(Image(None, [], [])), None, map[], {}, 0, false);
    var w1 := FirstOpen(w0);
    var w2 := FirstAppend(w1);
    var w3 := DieInEntry(w2);
    ws := [w0, w1, w2, w3];
    steps := [OpenStep(0, 1), AppendStep(PLAIN, 1), AppendDeath(PLAIN, 1, w3.medium)];
    TornStays(w3, dim, now);
  }

  /** The process dies when one byte of the index entry is written. */
  lemma DieInEntry(w: World) returns (w': World)
    requires Inv(w) && !w.stranded && w.session.Some? && Append(w.medium.image, w.session.value, PLAIN, 1).Stored?
    ensures Next(w, AppendDeath(PLAIN, 1, w'.medium), w') && w'.acked == w.acked && Inv(w') && !w'.stranded
    ensures !Aligned(w'.medium.image.idx) && w'.medium.image.meta.Some?
  {
    hide Inv, GoodHistory, Secured, NoneLost, Build, GoodMedium, EventBytes, IdxBytes, Prepare, GoodImage;
    var m, s := w.medium, w.session.value;
    SoundAlways(w);
    LiveIsAligned(w);
    var Stored(img, _, p) := Append(m.image, s, PLAIN, 1);
    var idx := img.idx[..|m.image.idx| + 1];
    var left := Medium(Image(m.image.meta, img.events, idx), iset{img.events}, m.idx + Span(m.image.idx, idx));
    w' := w.(medium := left, session := None, begun := w.begun + {Submission(PLAIN, 1, p)},
             cutAppends := w.cutAppends + 1);
    assert idx[..|m.image.idx|] == m.image.idx;
    StepKeepsInv(w, AppendDeath(PLAIN, 1, left), w');
  }

  lemma LiveIsAligned(w: World)
    requires Inv(w) && !w.stranded && w.session.Some?
    ensures Aligned(w.medium.image.idx) && w.medium.image.meta.Some?
  {
    hide ScanLog, GoodHistory, Secured, NoneLost;
    var d: u16 :| InvAt(w, d);
    SoundNow(w.medium, d);
    CleanIsAligned(w.medium.image.events, w.medium.image.idx, d);
  }

  lemma TornStays(w: World, dim: u16, now: Time)
    requires Inv(w) && !w.stranded && !Aligned(w.medium.image.idx) && w.medium.image.meta.Some?
    ensures var img := w.medium.image; Open(img, dim, now) == (img, Err(IdxMisaligned(|img.idx|)))
  {
    hide ScanLog, GoodHistory, Secured, NoneLost, LiveSession;
    var d: u16 :| InvAt(w, d);
    SoundNow(w.medium, d);
    OpenMisaligned(w.medium.image, dim, now);
  }
}
