/** Where every field lies in the three file formats of the event store, octet by octet, and which records
    are refused. */
module Layout {
  import opened Prelude
  import opened LittleEndian
  import opened Utf8
  import opened Format

  // ── Numbers in place ────────────────────────────────────────────────────────

  /** The octets at `at` hold `n`, the least significant first. */
  predicate Holds2(b: Bytes, at: nat, n: int) {
    at + 2 <= |b| && n == b[at] as int + 0x100 * (b[at + 1] as int)
  }

  function Four(b: Bytes, at: nat): int
    requires at + 4 <= |b|
  {
    b[at] as int + 0x100 * (b[at + 1] as int) + 0x1_0000 * (b[at + 2] as int) + 0x100_0000 * (b[at + 3] as int)
  }

  predicate Holds4(b: Bytes, at: nat, n: int) {
    at + 4 <= |b| && n == Four(b, at)
  }

  predicate Holds8(b: Bytes, at: nat, n: int) {
    at + 8 <= |b| && n == Four(b, at) + 0x1_0000_0000 * Four(b, at + 4)
  }

  /** A time in nanoseconds, in two's complement; one that does not fit counts as the epoch. */
  predicate HoldsTime(b: Bytes, at: nat, t: Time) {
    if t < -0x8000_0000_0000_0000 || t >= 0x8000_0000_0000_0000 then Holds8(b, at, 0)
    else if t < 0 then Holds8(b, at, t + 0x1_0000_0000_0000_0000)
    else Holds8(b, at, t)
  }

  predicate HoldsOptTime(b: Bytes, at: nat, t: Option<Time>) {
    if t.None? then Holds8(b, at, 0) else HoldsTime(b, at, t.value)
  }

  lemma FromLeStep(s: Bytes)
    ensures FromLe([]) == 0 && (s != [] ==> FromLe(s) == s[0] as int + 256 * FromLe(s[1..]))
  {
  }

  lemma FromLe2(s: Bytes)
    requires |s| == 2
    ensures FromLe(s) == s[0] as int + 0x100 * (s[1] as int)
  {
    hide FromLe;
    FromLeStep(s);
    FromLeStep(s[1..]);
    assert s[1..][1..] == [];
  }

  lemma FromLeSplit(s: Bytes)
    requires |s| >= 2
    ensures FromLe(s) == s[0] as int + 0x100 * (s[1] as int) + 0x1_0000 * FromLe(s[2..])
  {
    hide FromLe;
    FromLeStep(s);
    FromLeStep(s[1..]);
    assert s[1..][1..] == s[2..];
  }

  lemma FromLe4(s: Bytes)
    requires |s| == 4
    ensures FromLe(s) == Four(s, 0)
  {
    hide FromLe;
    FromLeSplit(s);
    FromLe2(s[2..]);
  }

  lemma FromLe8(s: Bytes)
    requires |s| == 8
    ensures FromLe(s) == Four(s, 0) + 0x1_0000_0000 * Four(s, 4)
  {
    hide FromLe;
    FromLeSplit(s);
    FromLeSplit(s[2..]);
    assert s[2..][2..] == s[4..];
    FromLe4(s[4..]);
  }

  lemma Le16Holds(b: Bytes, at: nat, n: u16)
    requires at + 2 <= |b| && b[at..at + 2] == Le16(n)
    ensures Holds2(b, at, n)
  {
    RoundTrip16(n);
    FromLe2(b[at..at + 2]);
    hide FromLe, Le16;
  }

  lemma Le32Holds(b: Bytes, at: nat, n: u32)
    requires at + 4 <= |b| && b[at..at + 4] == Le32(n)
    ensures Holds4(b, at, n)
  {
    RoundTrip32(n);
    FromLe4(b[at..at + 4]);
    hide FromLe, Le32;
  }

  lemma Le64Holds(b: Bytes, at: nat, n: u64)
    requires at + 8 <= |b| && b[at..at + 8] == Le64(n)
    ensures Holds8(b, at, n)
  {
    RoundTrip64(n);
    FromLe8(b[at..at + 8]);
    hide FromLe, Le64;
  }

  lemma WordHolds(b: Bytes, at: nat, t: Time)
    requires Holds8(b, at, ToWord(TimeToNanos(t)))
    ensures HoldsTime(b, at, t)
  {
    hide Holds8;
  }

  lemma OptWordHolds(b: Bytes, at: nat, t: Option<Time>)
    requires Holds8(b, at, ToWord(OptTimeToNanos(t)))
    ensures HoldsOptTime(b, at, t)
  {
    hide Holds8;
  }

  // ── events.bin ──────────────────────────────────────────────────────────────

  /** The first 49 octets of a record. */
  predicate HeaderLaid(b: Bytes, ev: Event) {
    && |b| >= 49
    && Holds4(b, 0, |b|) && Holds8(b, 4, ev.id) && Holds8(b, 12, ev.streamId)
    && HoldsTime(b, 20, ev.createdAt) && HoldsOptTime(b, 28, ev.closedAt)
    && b[36] == ev.eventType && b[37] == ev.outcome && b[38] == ev.confidence && b[39] == ev.flags && b[40] == ev.trace
    && Holds2(b, 41, |ev.refs|) && Holds2(b, 43, |ev.content|)
    && Holds2(b, 45, |ev.topic|) && Holds2(b, 47, |ev.cost|)
  }

  predicate RefLaid(b: Bytes, at: nat, r: Ref) {
    at < |b| && b[at] == r.kind && Holds8(b, at + 1, r.targetEventId) && Holds8(b, at + 9, r.targetOffsetCache)
  }

  /** Behind the header: 17 octets for every ref, the three texts, and 4 octets for every component. */
  predicate RecordLaid(b: Bytes, ev: Event) {
    var content := 49 + 17 * |ev.refs|;
    var topic := content + |ev.content|;
    var cost := topic + |ev.topic|;
    var vector := cost + |ev.cost|;
    && HeaderLaid(b, ev) && |b| == vector + 4 * |ev.vector|
    && (forall i | 0 <= i < |ev.refs| :: RefLaid(b, 49 + 17 * i, ev.refs[i]))
    && b[content..topic] == ev.content && b[topic..cost] == ev.topic && b[cost..vector] == ev.cost
    && (forall j | 0 <= j < |ev.vector| :: Holds4(b, vector + 4 * j, ev.vector[j]))
  }

  lemma FixedLaid(f: Fixed, b: Bytes)
    requires FixedBytes(f) <= b
    ensures Holds4(b, 0, f.recordLen) && Holds8(b, 4, f.id) && Holds8(b, 12, f.streamId)
    ensures Holds8(b, 20, f.createdAt) && Holds8(b, 28, f.closedAt)
    ensures b[36] == f.eventType && b[37] == f.outcome && b[38] == f.confidence && b[39] == f.flags && b[40] == f.trace
    ensures Holds2(b, 41, f.refsCount) && Holds2(b, 43, f.contentLen)
    ensures Holds2(b, 45, f.topicLen) && Holds2(b, 47, f.costLen)
  {
    hide Le16, Le32, Le64, Holds2, Holds4, Holds8;
    LeadLaid(f, b);
    CountsLaid(f, b);
  }

  lemma LeadLaid(f: Fixed, b: Bytes)
    requires FixedBytes(f) <= b
    ensures Holds4(b, 0, f.recordLen) && Holds8(b, 4, f.id) && Holds8(b, 12, f.streamId)
    ensures Holds8(b, 20, f.createdAt) && Holds8(b, 28, f.closedAt)
  {
    hide Le16, Le32, Le64, Holds2, Holds4, Holds8, CountBytes;
    var lead := LeadBytes(f);
    assert b[0..36] == lead by { assert FixedBytes(f)[..36] == lead; }
    assert lead[0..4] == Le32(f.recordLen) && lead[4..12] == Le64(f.id) && lead[12..20] == Le64(f.streamId);
    assert lead[20..28] == Le64(f.createdAt) && lead[28..36] == Le64(f.closedAt);
    assert forall i, j | 0 <= i <= j <= 36 :: b[i..j] == b[0..36][i..j];
    Le32Holds(b, 0, f.recordLen);
    Le64Holds(b, 4, f.id);
    Le64Holds(b, 12, f.streamId);
    Le64Holds(b, 20, f.createdAt);
    Le64Holds(b, 28, f.closedAt);
  }

  lemma CountsLaid(f: Fixed, b: Bytes)
    requires FixedBytes(f) <= b
    ensures b[36] == f.eventType && b[37] == f.outcome && b[38] == f.confidence && b[39] == f.flags && b[40] == f.trace
    ensures Holds2(b, 41, f.refsCount) && Holds2(b, 43, f.contentLen)
    ensures Holds2(b, 45, f.topicLen) && Holds2(b, 47, f.costLen)
  {
    hide Le16, Le32, Le64, Holds2, LeadBytes;
    var counts, fixed := CountBytes(f), FixedBytes(f);
    assert fixed[41..49] == counts;
    assert fixed[36] == f.eventType && fixed[37] == f.outcome && fixed[38] == f.confidence;
    assert fixed[39] == f.flags && fixed[40] == f.trace;
    assert b[41..49] == counts by { assert b[41..49] == fixed[41..49]; }
    assert counts[0..2] == Le16(f.refsCount) && counts[2..4] == Le16(f.contentLen);
    assert counts[4..6] == Le16(f.topicLen) && counts[6..8] == Le16(f.costLen);
    assert forall i, j | 0 <= i <= j <= 8 :: b[41 + i..41 + j] == b[41..49][i..j];
    Le16Holds(b, 41, f.refsCount);
    Le16Holds(b, 43, f.contentLen);
    Le16Holds(b, 45, f.topicLen);
    Le16Holds(b, 47, f.costLen);
  }

  lemma {:induction false} RefsLaid(refs: seq<Ref>, b: Bytes, at: nat, i: nat)
    requires at + |RefsBytes(refs)| <= |b| && b[at..at + |RefsBytes(refs)|] == RefsBytes(refs) && i < |refs|
    ensures RefLaid(b, at + 17 * i, refs[i])
  {
    hide Le64, Holds8;
    var one, rest := RefBytes(refs[0]), RefsBytes(refs[1..]);
    assert RefsBytes(refs) == one + rest;
    if i == 0 {
      assert b[at..at + 17] == one by { assert b[at..at + 17] == b[at..at + |RefsBytes(refs)|][..17]; }
      RefOctets(refs[0], b, at);
    } else {
      assert b[at + 17..at + 17 + |rest|] == b[at..at + |RefsBytes(refs)|][17..];
      RefsLaid(refs[1..], b, at + 17, i - 1);
    }
  }

  lemma Inner(b: Bytes, at: nat, n: nat, i: nat, j: nat)
    requires at + n <= |b| && i <= j <= n
    ensures b[at..at + n][i..j] == b[at + i..at + j]
  {
    var inner, outer := b[at..at + n][i..j], b[at + i..at + j];
    assert |inner| == |outer| && forall k | 0 <= k < |inner| :: inner[k] == outer[k];
  }

  lemma RefOctets(r: Ref, b: Bytes, at: nat)
    requires at + 17 <= |b| && b[at..at + 17] == RefBytes(r)
    ensures RefLaid(b, at, r)
  {
    hide Le64, Holds8;
    var one := RefBytes(r);
    assert one[1..9] == Le64(r.targetEventId) && one[9..17] == Le64(r.targetOffsetCache) && one[0] == r.kind;
    assert b[at] == b[at..at + 17][0];
    Inner(b, at, 17, 1, 9);
    Inner(b, at, 17, 9, 17);
    Le64Holds(b, at + 1, r.targetEventId);
    Le64Holds(b, at + 9, r.targetOffsetCache);
  }

  lemma {:induction false} VectorLaid(v: seq<u32>, b: Bytes, at: nat, j: nat)
    requires at + |VectorBytes(v)| <= |b| && b[at..at + |VectorBytes(v)|] == VectorBytes(v) && j < |v|
    ensures Holds4(b, at + 4 * j, v[j])
  {
    hide Le32, Holds4;
    var one, rest := Le32(v[0]), VectorBytes(v[1..]);
    assert VectorBytes(v) == one + rest;
    if j == 0 {
      assert b[at..at + 4] == b[at..at + |VectorBytes(v)|][..4] == one;
      Le32Holds(b, at, v[0]);
    } else {
      assert b[at + 4..at + 4 + |rest|] == b[at..at + |VectorBytes(v)|][4..];
      VectorLaid(v[1..], b, at + 4, j - 1);
    }
  }

  /** Every field of an encoded event is where the format puts it. */
  lemma EventLaidOut(ev: Event, dim: u16)
    requires Encodable(ev, dim)
    ensures RecordLaid(EventBytes(ev, dim), ev)
  {
    hide RefsBytes, VectorBytes, FixedBytes, ToWord, Holds2, Holds4, Holds8, HoldsTime, HoldsOptTime, RefLaid, Valid,
      ReadFixed;
    var f, b := EventFixed(ev, dim), EventBytes(ev, dim);
    FieldsInPlace(ev, dim, []);
    assert b + [] == b;
    assert FixedBytes(f) <= b;
    FixedLaid(f, b);
    WordHolds(b, 20, ev.createdAt);
    OptWordHolds(b, 28, ev.closedAt);
    forall i | 0 <= i < |ev.refs| ensures RefLaid(b, 49 + 17 * i, ev.refs[i]) {
      RefsLaid(ev.refs, b, 49, i);
    }
    forall j | 0 <= j < |ev.vector| ensures Holds4(b, VectorAt(f) + 4 * j, ev.vector[j]) {
      VectorLaid(ev.vector, b, VectorAt(f), j);
    }
  }

  // ── events.idx and meta.bin ─────────────────────────────────────────────────

  /** The 28 octets of an index entry. */
  lemma EntryLaidOut(r: IdxRecord)
    ensures var b := IdxBytes(r);
            && |b| == 28 && Holds8(b, 0, r.eventId) && Holds8(b, 8, r.fileOffset) && Holds4(b, 16, r.recordLen)
            && HoldsTime(b, 20, r.createdAt)
  {
    hide Le32, Le64, Holds4, Holds8, HoldsTime, ToWord;
    var b := IdxBytes(r);
    assert b[0..8] == Le64(r.eventId) && b[8..16] == Le64(r.fileOffset) && b[16..20] == Le32(r.recordLen);
    assert b[20..28] == Le64(ToWord(TimeToNanos(r.createdAt)));
    Le64Holds(b, 0, r.eventId);
    Le64Holds(b, 8, r.fileOffset);
    Le32Holds(b, 16, r.recordLen);
    Le64Holds(b, 20, ToWord(TimeToNanos(r.createdAt)));
    WordHolds(b, 20, r.createdAt);
  }

  /** The 64 octets of meta.bin; the last 16 are zero. */
  lemma MetaLaidOut(h: MetaHeader)
    ensures var b := MetaBytes(h);
            && |b| == 64 && Holds4(b, 0, h.magic) && Holds2(b, 4, h.version) && Holds2(b, 6, h.vectorDim)
            && Holds8(b, 8, h.lastEventId) && Holds8(b, 16, h.eventCount) && Holds8(b, 24, h.streamCount)
            && HoldsTime(b, 32, h.createdAt) && HoldsOptTime(b, 40, h.lastSnapshotAt)
            && forall i | 48 <= i < 64 :: b[i] == 0
  {
    hide Le16, Le32, Le64, Holds2, Holds4, Holds8, HoldsTime, HoldsOptTime, ToWord;
    var b := MetaBytes(h);
    assert b[0..4] == Le32(h.magic) && b[4..6] == Le16(h.version) && b[6..8] == Le16(h.vectorDim);
    assert b[8..16] == Le64(h.lastEventId) && b[16..24] == Le64(h.eventCount) && b[24..32] == Le64(h.streamCount);
    assert b[32..40] == Le64(ToWord(TimeToNanos(h.createdAt)));
    assert b[40..48] == Le64(ToWord(OptTimeToNanos(h.lastSnapshotAt)));
    Le32Holds(b, 0, h.magic);
    Le16Holds(b, 4, h.version);
    Le16Holds(b, 6, h.vectorDim);
    Le64Holds(b, 8, h.lastEventId);
    Le64Holds(b, 16, h.eventCount);
    Le64Holds(b, 24, h.streamCount);
    Le64Holds(b, 32, ToWord(TimeToNanos(h.createdAt)));
    Le64Holds(b, 40, ToWord(OptTimeToNanos(h.lastSnapshotAt)));
    WordHolds(b, 32, h.createdAt);
    OptWordHolds(b, 40, h.lastSnapshotAt);
  }

  // ── What is refused ─────────────────────────────────────────────────────────

  /** The counted fields of an event in the order they are checked. */
  function Counted(ev: Event): seq<(string, nat)> {
    [("refs", |ev.refs|), ("content", |ev.content|), ("topic", |ev.topic|), ("cost", |ev.cost|)]
  }

  predicate Fit(fields: seq<(string, nat)>) {
    forall k | 0 <= k < |fields| :: fields[k].1 <= 65_535
  }

  /** An event is refused for the first field of more than 65,535 items, and else for a vector of the wrong
      dimension. */
  lemma RefusedExactly(ev: Event, dim: u16)
    ensures Encodable(ev, dim) <==> EncodeFailure(ev, dim) == None
    ensures Encodable(ev, dim) <==> |ev.vector| == dim && Fit(Counted(ev))
    ensures forall k | 0 <= k < 4 && Counted(ev)[k].1 > 65_535 && Fit(Counted(ev)[..k]) ::
              EncodeFailure(ev, dim) == Some(FieldTooLarge(Counted(ev)[k].0, Counted(ev)[k].1))
    ensures Fit(Counted(ev)) && |ev.vector| != dim ==>
              EncodeFailure(ev, dim) == Some(VectorDimension(|ev.vector|, dim))
  {
    var c := Counted(ev);
    assert c[0].1 == |ev.refs| && c[1].1 == |ev.content| && c[2].1 == |ev.topic| && c[3].1 == |ev.cost|;
  }

  /** What decoding makes of the numbers it finds: a record is accepted exactly when it is all there and its
      length is that of its parts. */
  lemma DecodedExactly(b: Bytes, dim: u16, len: nat, refs: nat, content: nat, topic: nat, cost: nat)
    requires |b| >= 49 ==> Holds4(b, 0, len) && Holds2(b, 41, refs) && Holds2(b, 43, content) && Holds2(b, 45, topic)
                           && Holds2(b, 47, cost)
    ensures var size := 49 + 17 * refs + content + topic + cost + 4 * dim; var r := DecodeEvent(b, dim);
            if |b| < 49 then r == Err(ShortBuffer(49, |b|))
            else if |b| < len then r == Err(ShortBuffer(len, |b|))
            else if len != size then r == Err(RecordLen(len, size))
            else r.Ok? && r.value.1 == len
  {
    hide EventAt, Rd64, Holds8;
    if |b| >= 49 {
      NumbersRead(b, len, refs, content, topic, cost);
      hide ReadFixed, Holds2, Holds4;
    }
  }

  lemma NumbersRead(b: Bytes, len: nat, refs: nat, content: nat, topic: nat, cost: nat)
    requires |b| >= 49 && Holds4(b, 0, len) && Holds2(b, 41, refs) && Holds2(b, 43, content) && Holds2(b, 45, topic)
    requires Holds2(b, 47, cost)
    ensures var f := ReadFixed(b);
            && f.recordLen == len && f.refsCount == refs && f.contentLen == content && f.topicLen == topic
            && f.costLen == cost
  {
    hide FromLe, Rd64;
    FromLe4(b[0..4]);
    FromLe2(b[41..43]);
    FromLe2(b[43..45]);
    FromLe2(b[45..47]);
    FromLe2(b[47..49]);
  }

  // ── What is read ────────────────────────────────────────────────────────────

  lemma Held2(b: Bytes, at: nat)
    requires at + 2 <= |b|
    ensures Holds2(b, at, FromLe(b[at..at + 2]))
  {
    FromLe2(b[at..at + 2]);
    hide FromLe;
  }

  lemma Held4(b: Bytes, at: nat)
    requires at + 4 <= |b|
    ensures Holds4(b, at, FromLe(b[at..at + 4]))
  {
    FromLe4(b[at..at + 4]);
    hide FromLe;
  }

  lemma Held8(b: Bytes, at: nat)
    requires at + 8 <= |b|
    ensures Holds8(b, at, FromLe(b[at..at + 8]))
  {
    FromLe8(b[at..at + 8]);
    hide FromLe;
  }

  lemma TimeHeld(b: Bytes, at: nat, w: u64)
    requires Holds8(b, at, w)
    ensures Representable(FromWord(w)) && HoldsTime(b, at, FromWord(w))
    ensures var t := NanosToOptTime(FromWord(w)); t != Some(0) && HoldsOptTime(b, at, t)
  {
    hide Holds8;
  }

  /** The header of a decoded record, read in place. */
  predicate HeaderReads(b: Bytes, n: nat, ev: Event) {
    && |b| >= 49 && Holds4(b, 0, n) && Holds8(b, 4, ev.id) && Holds8(b, 12, ev.streamId)
    && Representable(ev.createdAt) && HoldsTime(b, 20, ev.createdAt)
    && ev.closedAt != Some(0) && HoldsOptTime(b, 28, ev.closedAt)
    && b[36] == ev.eventType && b[37] == ev.outcome && b[38] == ev.confidence && b[39] == ev.flags && b[40] == ev.trace
    && Holds2(b, 41, |ev.refs|) && ev.fileOffset == 0
  }

  lemma HeaderRead(b: Bytes, dim: u16)
    requires DecodeEvent(b, dim).Ok?
    ensures HeaderReads(b, DecodeEvent(b, dim).value.1, DecodeEvent(b, dim).value.0)
  {
    hide FromLe, Holds2, Holds4, Holds8, HoldsTime, HoldsOptTime, DecodeUtf8, FromWord, NanosToOptTime;
    Held4(b, 0);
    Held8(b, 4);
    Held8(b, 12);
    Held8(b, 20);
    Held8(b, 28);
    Held2(b, 41);
    TimeHeld(b, 20, FromLe(b[20..28]));
    TimeHeld(b, 28, FromLe(b[28..36]));
  }

  lemma {:induction false} RefsRead(b: Bytes, at: nat, n: nat, i: nat)
    requires at + 17 * n <= |b| && i < n
    ensures RefLaid(b, at + 17 * i, ReadRefs(b[at..at + 17 * n], n)[i])
    decreases n
  {
    hide FromLe, Holds8;
    var s := b[at..at + 17 * n];
    if i == 0 {
      Held8(b, at + 1);
      Held8(b, at + 9);
      Inner(b, at, 17 * n, 0, 17);
      Inner(b, at, 17, 1, 9);
      Inner(b, at, 17, 9, 17);
    } else {
      Inner(b, at, 17 * n, 17, 17 * n);
      RefsRead(b, at + 17, n - 1, i - 1);
    }
  }

  lemma {:induction false} VectorRead(b: Bytes, at: nat, n: nat, j: nat)
    requires at + 4 * n <= |b| && j < n
    ensures Holds4(b, at + 4 * j, ReadVector(b[at..at + 4 * n], n)[j])
    decreases n
  {
    hide FromLe, Holds4;
    if j == 0 {
      Held4(b, at);
      Inner(b, at, 4 * n, 0, 4);
    } else {
      Inner(b, at, 4 * n, 4, 4 * n);
      VectorRead(b, at + 4, n - 1, j - 1);
    }
  }

  /** What decoding makes of any bytes it accepts: every field is read from where the format puts it, and the
      texts, whose lengths these are, lossily. */
  lemma DecodedLaid(b: Bytes, dim: u16, content: nat, topic: nat, cost: nat)
    requires DecodeEvent(b, dim).Ok? && Holds2(b, 43, content) && Holds2(b, 45, topic) && Holds2(b, 47, cost)
    ensures var (ev, n) := DecodeEvent(b, dim).value;
            var texts := 49 + 17 * |ev.refs|; var vector := texts + content + topic + cost;
            && HeaderReads(b, n, ev) && vector + 4 * dim == n <= |b| && |ev.vector| == dim
            && (forall i | 0 <= i < |ev.refs| :: RefLaid(b, 49 + 17 * i, ev.refs[i]))
            && ev.content == Lossy(b[texts..texts + content])
            && ev.topic == Lossy(b[texts + content..texts + content + topic])
            && ev.cost == Lossy(b[texts + content + topic..vector])
            && forall j | 0 <= j < dim :: Holds4(b, vector + 4 * j, ev.vector[j])
  {
    hide DecodeEvent, Holds2, Holds4, RefLaid, Lossy, ReadRefs, ReadVector;
    HeaderRead(b, dim);
    hide HeaderReads;
    var (ev, n) := DecodeEvent(b, dim).value;
    var texts := 49 + 17 * |ev.refs|;
    var vector := texts + content + topic + cost;
    PartsRead(b, dim, content, topic, cost);
    forall i | 0 <= i < |ev.refs| ensures RefLaid(b, 49 + 17 * i, ev.refs[i]) {
      RefsRead(b, 49, |ev.refs|, i);
    }
    forall j | 0 <= j < dim ensures Holds4(b, vector + 4 * j, ev.vector[j]) {
      VectorRead(b, vector, dim, j);
    }
  }

  lemma PartsRead(b: Bytes, dim: u16, content: nat, topic: nat, cost: nat)
    requires DecodeEvent(b, dim).Ok? && Holds2(b, 43, content) && Holds2(b, 45, topic) && Holds2(b, 47, cost)
    ensures var (ev, n) := DecodeEvent(b, dim).value;
            var texts := 49 + 17 * |ev.refs|; var vector := texts + content + topic + cost;
            && vector + 4 * dim == n <= |b| && |ev.vector| == dim
            && ev.refs == ReadRefs(b[49..49 + 17 * |ev.refs|], |ev.refs|)
            && ev.content == Lossy(b[texts..texts + content])
            && ev.topic == Lossy(b[texts + content..texts + content + topic])
            && ev.cost == Lossy(b[texts + content + topic..vector])
            && ev.vector == ReadVector(b[vector..vector + 4 * dim], dim)
  {
    hide FromLe, Holds2, Lossy, ReadRefs, ReadVector, FromWord, NanosToOptTime;
    Held2(b, 43);
    Held2(b, 45);
    Held2(b, 47);
    SameNumber(b, 43, content);
    SameNumber(b, 45, topic);
    SameNumber(b, 47, cost);
  }

  lemma SameNumber(b: Bytes, at: nat, n: nat)
    requires Holds2(b, at, n)
    ensures FromLe(b[at..at + 2]) == n
  {
    FromLe2(b[at..at + 2]);
  }

  /** meta.bin is accepted when it is all there, marked as such and of no later version, and is then read in
      place; its reserved octets are ignored. */
  lemma MetaDecoded(b: Bytes, magic: nat, version: nat)
    requires |b| >= 64 ==> Holds4(b, 0, magic) && Holds2(b, 4, version)
    ensures match DecodeMeta(b)
            case Err(e) =>
              if |b| < 64 then e == ShortBuffer(64, |b|)
              else if magic != 0x4F4D_454D then e == BadMagic(magic)
              else version > 2 && e == FutureVersion(version)
            case Ok(h) =>
              && |b| >= 64 && magic == 0x4F4D_454D && version <= 2 && h.magic == magic && h.version == version
              && Holds2(b, 6, h.vectorDim) && Holds8(b, 8, h.lastEventId) && Holds8(b, 16, h.eventCount)
              && Holds8(b, 24, h.streamCount) && HoldsTime(b, 32, h.createdAt) && HoldsOptTime(b, 40, h.lastSnapshotAt)
              && Representable(h.createdAt) && h.lastSnapshotAt != Some(0)
  {
    if |b| >= 64 {
      FromLe4(b[0..4]);
      SameNumber(b, 4, version);
      hide FromLe, Holds2, Holds4, Holds8, HoldsTime, HoldsOptTime, FromWord, NanosToOptTime;
      Held2(b, 6);
      Held8(b, 8);
      Held8(b, 16);
      Held8(b, 24);
      Held8(b, 32);
      Held8(b, 40);
      TimeHeld(b, 32, FromLe(b[32..40]));
      TimeHeld(b, 40, FromLe(b[40..48]));
    }
  }
}
