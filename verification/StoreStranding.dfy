/** The one way to lose access to a store without tearing an index entry: a process is killed between
    writing a record and syncing it, the next process indexes the record and syncs only the index, and
    the power fails before the next append. */
module StoreStranding {
  import opened Prelude
  import opened Format
  import opened EventLog
  import opened EventGraph
  import opened Recovery
  import opened StoreRuns
  import opened StoreSafety

  ghost predicate Chain(ws: seq<World>, steps: seq<Step>) {
    |ws| == |steps| + 1 && forall i | 0 <= i < |steps| :: Next(ws[i], steps[i], ws[i + 1])
  }

  /** The index of a clean store covers events.bin to its end. */
  lemma CleanCovers(events: FileBytes, idx: Bytes, d: u16)
    requires Clean(events, idx, d) && ScanLog(events, d, 0).idx != []
    ensures Aligned(idx) && Indexed(idx) == |ScanLog(events, d, 0).idx| && CoveredEnd(idx) == |events|
  {
    hide ScanLog, CoveredEnd, Tiles;
    CoveredOfConsistent(events, idx, d);
    ScanTiles(events, d, 0);
    TilesEnd(ScanLog(events, d, 0).idx, 0, ScanLog(events, d, 0).clean);
    CleanIsCovered(events, idx, d);
  }

  /** The record is in the file and none of it is synced. */
  ghost function Unsynced(m: Medium, events: FileBytes): Medium {
    Medium(m.image.(events := events), m.events + EventSpan(m.image.events, events), m.idx)
  }

  lemma DieUnsynced(w: World, d: u16, ev: Event, now: Time) returns (w': World)
    requires LiveAt(w, d) && !w.stranded && w.session.Some?
    requires Append(w.medium.image, w.session.value, ev, now).Stored?
    ensures var img := Append(w.medium.image, w.session.value, ev, now).image;
            && w'.medium == Unsynced(w.medium, img.events)
            && Next(w, AppendDeath(ev, now, w'.medium), w')
            && w' == w.(medium := w'.medium, session := None, begun := w'.begun, cutAppends := w.cutAppends + 1)
  {
    hide ScanLog, EventBytes, IdxBytes, GoodSession, GoodHistory, Secured, NoneLost, GoodMedium, Build;
    var m, s := w.medium, w.session.value;
    var Stored(img, s', p) := Append(m.image, s, ev, now);
    var left := Unsynced(m, img.events);
    assert Sound(m) by { SoundNow(m, d); }
    w' := w.(medium := left, session := None, begun := w.begun + {Submission(ev, now, p)}, cutAppends := w.cutAppends + 1);
  }

  lemma SoundNow(m: Medium, d: u16)
    requires GoodMedium(m, d)
    ensures Sound(m) && GoodImage(m.image, d)
  {
  }

  /** Reopening indexes the record and syncs the index, and only the index. */
  lemma ReopenUnsynced(w: World, d: u16, ev: Event, now: Time, dim: u16, w1: World) returns (w': World)
    requires LiveAt(w, d) && !w.stranded && w.session.Some?
    requires Append(w.medium.image, w.session.value, ev, now).Stored?
    requires w1.medium == Unsynced(w.medium, Append(w.medium.image, w.session.value, ev, now).image.events)
    requires w1.session.None? && LiveAt(w1, d)
    ensures var img := Append(w.medium.image, w.session.value, ev, now).image;
            && w'.medium == Medium(img, w1.medium.events, iset{img.idx})
            && Next(w1, OpenStep(dim, now), w') && w' == w1.(medium := w'.medium, session := w'.session)
  {
    hide ScanLog, EventBytes, IdxBytes, GoodHistory, Secured, NoneLost, Build, Open, ReadMeta, Sequential, DurableLog;
    var m, s := w.medium, w.session.value;
    SoundNow(m, d);
    AppendGood(m.image, s, ev, now);
    var img := Append(m.image, s, ev, now).image;
    SoundNow(w1.medium, d);
    CleanIsAligned(m.image.events, m.image.idx, d);
    GoodImageOpens(w1.medium.image, dim, now, d);
    assert |img.idx| > |m.image.idx|;
    var (m', r) := Opened(w1.medium, dim, now);
    w' := w1.(medium := m', session := Some(r.value));
  }

  /** The image a power loss then leaves: the old events.bin under the new index. */
  lemma StrandedImage(img: Image, s: Session, ev: Event, now: Time, dim: u16)
    requires GoodImage(img, s.header.vectorDim) && GoodSession(img, s) && Append(img, s, ev, now).Stored?
    ensures var left := img.(idx := Append(img, s, ev, now).image.idx);
            && Aligned(left.idx) && Strands(left)
            && Open(left, dim, now).1.Err? && Open(left, dim, now).1.error.IdxAhead?
  {
    hide ScanLog, EventBytes, IdxBytes, Build, Sequential, DurableLog, CoveredEnd, ReadMeta, RepairFrom;
    var d := s.header.vectorDim;
    AppendGood(img, s, ev, now);
    var img' := Append(img, s, ev, now).image;
    CleanCovers(img'.events, img'.idx, d);
  }

  /** From any live store: die with the record unsynced, reopen, lose power. Then no open succeeds although
      no index entry is torn and events.bin is exactly what it was. */
  lemma StrandingSteps(w: World, ev: Event, now: Time, dim: u16) returns (ws: seq<World>, steps: seq<Step>)
    requires Inv(w) && w.session.Some? && Append(w.medium.image, w.session.value, ev, now).Stored?
    ensures Chain(ws, steps) && |steps| == 3 && ws[0] == w
    ensures ws[3].acked == w.acked && ws[3].medium.image.events == w.medium.image.events
    ensures Aligned(ws[3].medium.image.idx)
    ensures Open(ws[3].medium.image, dim, now).1.Err? && Open(ws[3].medium.image, dim, now).1.error.IdxAhead?
  {
    hide ScanLog, EventBytes, IdxBytes, Open, GoodSession, GoodHistory, Secured, NoneLost, Build, Append, Strands,
      ReadMeta;
    var d: u16 :| InvAt(w, d);
    var s, m := w.session.value, w.medium;
    SoundNow(m, d);
    StrandedImage(m.image, s, ev, now, dim);
    var img := Append(m.image, s, ev, now).image;
    AppendKeepsMeta(m.image, s, ev, now);
    var w1 := DieUnsynced(w, d, ev, now);
    AppendDeathKeeps(w, ev, now, w1.medium, w1, d);
    var w2 := ReopenUnsynced(w, d, ev, now, dim, w1);
    var left := m.image.(idx := img.idx);
    var w3 := w2.(medium := Settled(left), session := None, stranded := true);
    assert Next(w2, PowerLoss(left), w3);
    ws := [w, w1, w2, w3];
    steps := [AppendDeath(ev, now, w1.medium), OpenStep(dim, now), PowerLoss(left)];
  }

  lemma AppendKeepsMeta(img: Image, s: Session, ev: Event, now: Time)
    requires Append(img, s, ev, now).Stored?
    ensures Append(img, s, ev, now).image.meta == img.meta
  {
  }

  // ── A whole run ─────────────────────────────────────────────────────────────

  /** An event without text, refs or vector. */
  const PLAIN := Event(0, 1, 1, None, 0, 0, 0, 0, 0, [], [], [], [], [], 0)

  lemma PlainIsStored(img: Image, s: Session)
    requires s.header.vectorDim == 0 && |img.events| <= 4_000_000
    ensures Append(img, s, PLAIN, 1).Stored?
    ensures |Append(img, s, PLAIN, 1).image.events| <= |img.events| + 1_572_889
    ensures Append(img, s, PLAIN, 1).event.id == s.nextId
    ensures Append(img, s, PLAIN, 1).session.header.vectorDim == 0
  {
    hide EventBytes, IdxBytes, Build;
    var p := Prepare(PLAIN, s, 1, |img.events|);
    RecordSizeBound(p, 0);
  }

  /** Open a fresh store, append an event, which is acknowledged, and go through the steps above with a
      second event: the acknowledged event is still in events.bin, and no open succeeds any more. */
  lemma StrandingRun() returns (ws: seq<World>, steps: seq<Step>)
    ensures Run(ws, steps) && |steps| == 5 && 1 in ws[5].acked
    ensures Aligned(ws[5].medium.image.idx) && ws[5].medium.image.events == ws[2].medium.image.events
    ensures Open(ws[5].medium.image, 0, 1).1.Err? && Open(ws[5].medium.image, 0, 1).1.error.IdxAhead?
  {
    hide Open, Next, Inv, Append;
    var w0 := World(Settled(Image(None, [], [])), None, map[], {}, 0, false);
    var w1 := FirstOpen(w0);
    var w2 := FirstAppend(w1);
    var more, last := StrandingSteps(w2, PLAIN, 1, 0);
    ws := [w0, w1] + more;
    steps := [OpenStep(0, 1), AppendStep(PLAIN, 1)] + last;
    assert ws[2] == more[0] && ws[5] == more[3];
    forall i | 0 <= i < |steps| ensures Next(ws[i], steps[i], ws[i + 1]) {
      if i >= 2 {
        assert ws[i] == more[i - 2] && ws[i + 1] == more[i - 1] && steps[i] == last[i - 2];
      }
    }
  }

  lemma FirstOpen(w0: World) returns (w1: World)
    requires Init(w0)
    ensures Next(w0, OpenStep(0, 1), w1) && Inv(w0) && Inv(w1)
    ensures w1.session.Some? && w1.medium.image.events == w1.medium.image.idx == []
    ensures w1.session.value.header.vectorDim == 0 && w1.session.value.nextId == 1 && !w1.stranded
  {
    hide Open, GoodSession, GoodImage, MetaBytes;
    FreshOpens(0, 1);
    var (m, r) := Opened(w0.medium, 0, 1);
    w1 := w0.(medium := m, session := Some(r.value));
    SessionLog(m.image, r.value);
    StepKeepsInv(w0, OpenStep(0, 1), w1);
  }

  lemma FirstAppend(w1: World) returns (w2: World)
    requires Inv(w1) && w1.session.Some? && w1.medium.image.events == []
    requires w1.session.value.header.vectorDim == 0 && w1.session.value.nextId == 1
    ensures Next(w1, AppendStep(PLAIN, 1), w2) && Inv(w2) && w2.session.Some? && 1 in w2.acked
    ensures w2.stranded == w1.stranded
    ensures Append(w2.medium.image, w2.session.value, PLAIN, 1).Stored?
  {
    hide Append, Inv;
    PlainIsStored(w1.medium.image, w1.session.value);
    var Stored(img, s, p) := Append(w1.medium.image, w1.session.value, PLAIN, 1);
    var a := Submission(PLAIN, 1, p);
    w2 := w1.(medium := Settled(img), session := Some(s), acked := w1.acked[p.id := a], begun := w1.begun + {a});
    StepKeepsInv(w1, AppendStep(PLAIN, 1), w2);
    PlainIsStored(img, s);
  }
}
