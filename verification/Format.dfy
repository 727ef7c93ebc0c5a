/** The on-disk codec of the event store: fixed headers, variable-length event records,
    index entries and the meta header, as functions, and the laws they obey. */
module Format {
  import opened Prelude
  import opened LittleEndian
  import opened Utf8

  const FILE_MAGIC: u32 := 0x4F4D_454D
  const FORMAT_VERSION: u16 := 2
  const META_HEADER_SIZE := 64
  const IDX_RECORD_SIZE := 28
  const EVENT_HEADER_SIZE := 49
  const REF_SIZE := 17
  const MAX_FIELD_LEN := 0xFFFF

  datatype FormatError =
    | ShortBuffer(need: nat, got: nat)
    | BadMagic(gotMagic: u32)
    | FutureVersion(gotVersion: u16)
    | FieldTooLarge(field: string, len: nat)
    | VectorDimension(dim: nat, want: u16)
    | RecordLen(recordLen: nat, actual: nat)

  // ── Times ───────────────────────────────────────────────────────────────────

  /** A UTC instant in nanoseconds since the epoch; wider than what 64 bits can hold. */
  type Time = int

  type i64 = n: int | -0x8000_0000_0000_0000 <= n < 0x8000_0000_0000_0000

  predicate Representable(t: Time) {
    -0x8000_0000_0000_0000 <= t < 0x8000_0000_0000_0000
  }

  function TimeToNanos(t: Time): i64 {
    if Representable(t) then t else 0
  }

  function OptTimeToNanos(t: Option<Time>): i64 {
    match t
    case None => 0
    case Some(v) => TimeToNanos(v)
  }

  function NanosToOptTime(n: i64): Option<Time> {
    if n == 0 then None else Some(n)
  }

  /** Two's complement: the `as u64` and `as i64` casts around the byte order functions. */
  function ToWord(n: i64): u64 {
    if n < 0 then n + 0x1_0000_0000_0000_0000 else n
  }

  function FromWord(w: u64): i64 {
    if w < 0x8000_0000_0000_0000 then w else w - 0x1_0000_0000_0000_0000
  }

  // ── Records ─────────────────────────────────────────────────────────────────

  datatype Ref = Ref(kind: byte, targetEventId: u64, targetOffsetCache: u64)

  /** Vectors are kept as the bit patterns of their floats. */
  datatype Event = Event(
    id: u64, streamId: u64, createdAt: Time, closedAt: Option<Time>,
    eventType: byte, outcome: byte, confidence: byte, flags: byte, trace: byte,
    refs: seq<Ref>, content: Text, topic: Text, cost: Text,
    vector: seq<u32>, fileOffset: u64)

  datatype IdxRecord = IdxRecord(eventId: u64, fileOffset: u64, recordLen: u32, createdAt: Time)

  datatype MetaHeader = MetaHeader(
    magic: u32, version: u16, vectorDim: u16, lastEventId: u64, eventCount: u64, streamCount: u64,
    createdAt: Time, lastSnapshotAt: Option<Time>)

  /** What of an event reaches the disk: times the format cannot express are lost. */
  function Durable(ev: Event): Event {
    ev.(createdAt := TimeToNanos(ev.createdAt),
        closedAt := NanosToOptTime(OptTimeToNanos(ev.closedAt)))
  }

  predicate FaithfulTimes(ev: Event) {
    && Representable(ev.createdAt)
    && (ev.closedAt.Some? ==> Representable(ev.closedAt.value) && ev.closedAt.value != 0)
  }

  // ── Fixed header of an event record ─────────────────────────────────────────

  datatype Fixed = Fixed(
    recordLen: u32, id: u64, streamId: u64, createdAt: u64, closedAt: u64,
    eventType: byte, outcome: byte, confidence: byte, flags: byte, trace: byte,
    refsCount: u16, contentLen: u16, topicLen: u16, costLen: u16)

  function FixedBytes(f: Fixed): (b: Bytes)
    ensures |b| == EVENT_HEADER_SIZE
  {
    LeadBytes(f) + [f.eventType, f.outcome, f.confidence, f.flags, f.trace] + CountBytes(f)
  }

  function LeadBytes(f: Fixed): (b: Bytes)
    ensures |b| == 36
  {
    Le32(f.recordLen) + Le64(f.id) + Le64(f.streamId) + Le64(f.createdAt) + Le64(f.closedAt)
  }

  function CountBytes(f: Fixed): (b: Bytes)
    ensures |b| == 8
  {
    Le16(f.refsCount) + Le16(f.contentLen) + Le16(f.topicLen) + Le16(f.costLen)
  }

  function ReadFixed(b: Bytes): Fixed
    requires |b| >= EVENT_HEADER_SIZE
  {
    Fixed(Rd32(b[0..4]), Rd64(b[4..12]), Rd64(b[12..20]), Rd64(b[20..28]), Rd64(b[28..36]),
          b[36], b[37], b[38], b[39], b[40],
          Rd16(b[41..43]), Rd16(b[43..45]), Rd16(b[45..47]), Rd16(b[47..49]))
  }

  lemma ReadFixedBytes(f: Fixed, rest: Bytes)
    ensures ReadFixed(FixedBytes(f) + rest) == f
  {
    hide Le16, Le32, Le64, Rd16, Rd32, Rd64;
    var b := FixedBytes(f) + rest;
    assert b[0..4] == Le32(f.recordLen);
    assert b[4..12] == Le64(f.id);
    assert b[12..20] == Le64(f.streamId);
    assert b[20..28] == Le64(f.createdAt);
    assert b[28..36] == Le64(f.closedAt);
    assert b[41..43] == Le16(f.refsCount);
    assert b[43..45] == Le16(f.contentLen);
    assert b[45..47] == Le16(f.topicLen);
    assert b[47..49] == Le16(f.costLen);
    RoundTrip32(f.recordLen);
    RoundTrip64(f.id); RoundTrip64(f.streamId); RoundTrip64(f.createdAt); RoundTrip64(f.closedAt);
    RoundTrip16(f.refsCount); RoundTrip16(f.contentLen); RoundTrip16(f.topicLen); RoundTrip16(f.costLen);
  }

  lemma FixedBytesRead(b: Bytes)
    requires |b| >= EVENT_HEADER_SIZE
    ensures FixedBytes(ReadFixed(b)) == b[..EVENT_HEADER_SIZE]
  {
    hide Le16, Le32, Le64, Rd16, Rd32, Rd64;
    Canonical32(b[0..4]);
    Canonical64(b[4..12]); Canonical64(b[12..20]); Canonical64(b[20..28]); Canonical64(b[28..36]);
    Canonical16(b[41..43]); Canonical16(b[43..45]); Canonical16(b[45..47]); Canonical16(b[47..49]);
    assert [b[36], b[37], b[38], b[39], b[40]] == b[36..41];
  }

  // ── Refs and vectors ────────────────────────────────────────────────────────

  function RefBytes(r: Ref): (b: Bytes)
    ensures |b| == REF_SIZE
  {
    [r.kind] + Le64(r.targetEventId) + Le64(r.targetOffsetCache)
  }

  function ReadRef(b: Bytes): Ref
    requires |b| == REF_SIZE
  {
    Ref(b[0], Rd64(b[1..9]), Rd64(b[9..17]))
  }

  lemma RefRoundTrip(r: Ref)
    ensures ReadRef(RefBytes(r)) == r
  {
    var b := RefBytes(r);
    assert b[1..9] == Le64(r.targetEventId) && b[9..17] == Le64(r.targetOffsetCache);
    RoundTrip64(r.targetEventId); RoundTrip64(r.targetOffsetCache);
  }

  lemma RefCanonical(b: Bytes)
    requires |b| == REF_SIZE
    ensures RefBytes(ReadRef(b)) == b
  {
    Canonical64(b[1..9]); Canonical64(b[9..17]);
    assert b == [b[0]] + b[1..9] + b[9..17];
  }

  function RefsBytes(refs: seq<Ref>): (b: Bytes)
    ensures |b| == |refs| * REF_SIZE
  {
    if refs == [] then [] else RefBytes(refs[0]) + RefsBytes(refs[1..])
  }

  function ReadRefs(b: Bytes, n: nat): (refs: seq<Ref>)
    requires |b| == n * REF_SIZE
    ensures |refs| == n
  {
    if n == 0 then [] else [ReadRef(b[..REF_SIZE])] + ReadRefs(b[REF_SIZE..], n - 1)
  }

  lemma {:induction false} RefsRoundTrip(refs: seq<Ref>)
    ensures ReadRefs(RefsBytes(refs), |refs|) == refs
  {
    hide RefBytes, ReadRef;
    if refs == [] {
    } else {
      RefRoundTrip(refs[0]);
      RefsRoundTrip(refs[1..]);
      var b := RefsBytes(refs);
      assert b[..REF_SIZE] == RefBytes(refs[0]) && b[REF_SIZE..] == RefsBytes(refs[1..]);
    }
  }

  lemma {:induction false} RefsCanonical(b: Bytes, n: nat)
    requires |b| == n * REF_SIZE
    ensures RefsBytes(ReadRefs(b, n)) == b
  {
    hide RefBytes, ReadRef;
    if n == 0 {
    } else {
      RefCanonical(b[..REF_SIZE]);
      RefsCanonical(b[REF_SIZE..], n - 1);
      assert ReadRefs(b, n)[1..] == ReadRefs(b[REF_SIZE..], n - 1);
      assert b == b[..REF_SIZE] + b[REF_SIZE..];
    }
  }

  function VectorBytes(v: seq<u32>): (b: Bytes)
    ensures |b| == |v| * 4
  {
    if v == [] then [] else Le32(v[0]) + VectorBytes(v[1..])
  }

  function ReadVector(b: Bytes, n: nat): (v: seq<u32>)
    requires |b| == n * 4
    ensures |v| == n
  {
    if n == 0 then [] else [Rd32(b[..4])] + ReadVector(b[4..], n - 1)
  }

  lemma {:induction false} VectorRoundTrip(v: seq<u32>)
    ensures ReadVector(VectorBytes(v), |v|) == v
  {
    hide Le32, Rd32;
    if v == [] {
    } else {
      RoundTrip32(v[0]);
      VectorRoundTrip(v[1..]);
      var b := VectorBytes(v);
      assert b[..4] == Le32(v[0]) && b[4..] == VectorBytes(v[1..]);
    }
  }

  lemma {:induction false} VectorCanonical(b: Bytes, n: nat)
    requires |b| == n * 4
    ensures VectorBytes(ReadVector(b, n)) == b
  {
    hide Le32, Rd32;
    if n == 0 {
    } else {
      Canonical32(b[..4]);
      VectorCanonical(b[4..], n - 1);
      assert ReadVector(b, n)[1..] == ReadVector(b[4..], n - 1);
      assert b == b[..4] + b[4..];
    }
  }

  // ── Event records ───────────────────────────────────────────────────────────

  function EventRecordSize(ev: Event, dim: u16): nat {
    EVENT_HEADER_SIZE + |ev.refs| * REF_SIZE + |ev.content| + |ev.topic| + |ev.cost| + dim * 4
  }

  /** The first check that fails, in the order the encoder makes them. */
  function EncodeFailure(ev: Event, dim: u16): Option<FormatError> {
    if |ev.refs| > MAX_FIELD_LEN then Some(FieldTooLarge("refs", |ev.refs|))
    else if |ev.content| > MAX_FIELD_LEN then Some(FieldTooLarge("content", |ev.content|))
    else if |ev.topic| > MAX_FIELD_LEN then Some(FieldTooLarge("topic", |ev.topic|))
    else if |ev.cost| > MAX_FIELD_LEN then Some(FieldTooLarge("cost", |ev.cost|))
    else if |ev.vector| != dim then Some(VectorDimension(|ev.vector|, dim))
    else None
  }

  predicate Encodable(ev: Event, dim: u16) {
    && |ev.refs| <= MAX_FIELD_LEN && |ev.content| <= MAX_FIELD_LEN
    && |ev.topic| <= MAX_FIELD_LEN && |ev.cost| <= MAX_FIELD_LEN
    && |ev.vector| == dim
  }

  /** No record is longer than 1,572,889 bytes: the `as u32` cast of the length loses nothing. */
  lemma RecordSizeBound(ev: Event, dim: u16)
    requires Encodable(ev, dim)
    ensures EVENT_HEADER_SIZE <= EventRecordSize(ev, dim) <= 1_572_889 < 0x1_0000_0000
  {
  }

  function EventFixed(ev: Event, dim: u16): Fixed
    requires Encodable(ev, dim)
  {
    Fixed(EventRecordSize(ev, dim), ev.id, ev.streamId,
          ToWord(TimeToNanos(ev.createdAt)), ToWord(OptTimeToNanos(ev.closedAt)),
          ev.eventType, ev.outcome, ev.confidence, ev.flags, ev.trace,
          |ev.refs|, |ev.content|, |ev.topic|, |ev.cost|)
  }

  function EventBytes(ev: Event, dim: u16): (b: Bytes)
    requires Encodable(ev, dim)
    ensures |b| == EventRecordSize(ev, dim)
  {
    FixedBytes(EventFixed(ev, dim)) + RefsBytes(ev.refs) + ev.content + ev.topic + ev.cost + VectorBytes(ev.vector)
  }

  /** Where the variable fields of a record lie, from the four counts in its header. */
  function ContentAt(f: Fixed): nat { EVENT_HEADER_SIZE + f.refsCount * REF_SIZE }
  function TopicAt(f: Fixed): nat { ContentAt(f) + f.contentLen }
  function CostAt(f: Fixed): nat { TopicAt(f) + f.topicLen }
  function VectorAt(f: Fixed): nat { CostAt(f) + f.costLen }
  function ExpectedLen(f: Fixed, dim: u16): nat { VectorAt(f) + dim * 4 }

  function EventAt(buf: Bytes, dim: u16): Event
    requires |buf| >= EVENT_HEADER_SIZE
    requires |buf| >= ExpectedLen(ReadFixed(buf), dim)
  {
    var f := ReadFixed(buf);
    Event(f.id, f.streamId, FromWord(f.createdAt), NanosToOptTime(FromWord(f.closedAt)),
          f.eventType, f.outcome, f.confidence, f.flags, f.trace,
          ReadRefs(buf[EVENT_HEADER_SIZE..ContentAt(f)], f.refsCount),
          DecodeUtf8(buf[ContentAt(f)..TopicAt(f)]),
          DecodeUtf8(buf[TopicAt(f)..CostAt(f)]),
          DecodeUtf8(buf[CostAt(f)..VectorAt(f)]),
          ReadVector(buf[VectorAt(f)..ExpectedLen(f, dim)], dim),
          0)
  }

  function DecodeEvent(buf: Bytes, dim: u16): (r: Result<(Event, nat), FormatError>)
    ensures r.Ok? ==> EVENT_HEADER_SIZE <= r.value.1 <= |buf| && r.value.1 < 0x1_0000_0000
  {
    if |buf| < EVENT_HEADER_SIZE then Err(ShortBuffer(EVENT_HEADER_SIZE, |buf|)) else
    var f := ReadFixed(buf);
    if |buf| < f.recordLen then Err(ShortBuffer(f.recordLen, |buf|)) else
    var expected := ExpectedLen(f, dim);
    if expected != f.recordLen then Err(RecordLen(f.recordLen, expected)) else
    Ok((EventAt(buf, dim), f.recordLen))
  }

  // ── Laws of the event codec ─────────────────────────────────────────────────

  /** Where the pieces of a concatenation lie. */
  lemma Pieces(a: Bytes, b: Bytes, c: Bytes, d: Bytes, e: Bytes, f: Bytes, rest: Bytes)
    ensures var buf := a + b + c + d + e + f + rest;
            var i := |a| + |b|; var j := i + |c|; var k := j + |d|; var l := k + |e|;
            && buf == a + (b + c + d + e + f + rest) && l + |f| <= |buf|
            && buf[|a|..i] == b && buf[i..j] == c && buf[j..k] == d && buf[k..l] == e && buf[l..l + |f|] == f
  {
  }

  /** The fields of a record, in place. */
  lemma FieldsInPlace(ev: Event, dim: u16, rest: Bytes)
    requires Encodable(ev, dim)
    ensures var f, buf := EventFixed(ev, dim), EventBytes(ev, dim) + rest;
            && ExpectedLen(f, dim) <= |buf| && ReadFixed(buf) == f
            && buf[EVENT_HEADER_SIZE..ContentAt(f)] == RefsBytes(ev.refs)
            && buf[ContentAt(f)..TopicAt(f)] == ev.content
            && buf[TopicAt(f)..CostAt(f)] == ev.topic
            && buf[CostAt(f)..VectorAt(f)] == ev.cost
            && buf[VectorAt(f)..ExpectedLen(f, dim)] == VectorBytes(ev.vector)
  {
    hide FixedBytes, ReadFixed, RefsBytes, VectorBytes, Valid;
    var fixed, refs, vector := FixedBytes(EventFixed(ev, dim)), RefsBytes(ev.refs), VectorBytes(ev.vector);
    Pieces(fixed, refs, ev.content, ev.topic, ev.cost, vector, rest);
    ReadFixedBytes(EventFixed(ev, dim), refs + ev.content + ev.topic + ev.cost + vector + rest);
  }

  lemma EventAtEncoded(ev: Event, dim: u16, rest: Bytes)
    requires Encodable(ev, dim)
    ensures ReadFixed(EventBytes(ev, dim) + rest) == EventFixed(ev, dim)
    ensures EventAt(EventBytes(ev, dim) + rest, dim) == Durable(ev).(fileOffset := 0)
  {
    FieldsInPlace(ev, dim, rest);
    hide ReadFixed, EventBytes, RefsBytes, ReadRefs, VectorBytes, ReadVector, Lossy, Valid,
      ContentAt, TopicAt, CostAt, VectorAt, ExpectedLen;
    RefsRoundTrip(ev.refs);
    VectorRoundTrip(ev.vector);
    LossyKeepsValid(ev.content);
    LossyKeepsValid(ev.topic);
    LossyKeepsValid(ev.cost);
  }

  /** Records are self-delimiting: whatever follows, the record alone is read back. */
  lemma DecodeEncoded(ev: Event, dim: u16, rest: Bytes)
    requires Encodable(ev, dim)
    ensures DecodeEvent(EventBytes(ev, dim) + rest, dim)
         == Ok((Durable(ev).(fileOffset := 0), |EventBytes(ev, dim)|))
  {
    EventAtEncoded(ev, dim, rest);
    hide EventBytes, EventAt, ReadFixed, Durable;
  }

  /** The decoded event is the encoded one exactly when its times survive the NULL sentinel. */
  lemma DecodeEncodedIsIdentity(ev: Event, dim: u16, rest: Bytes)
    requires Encodable(ev, dim)
    ensures DecodeEvent(EventBytes(ev, dim) + rest, dim) == Ok((ev, |EventBytes(ev, dim)|))
       <==> FaithfulTimes(ev) && ev.fileOffset == 0
  {
    DecodeEncoded(ev, dim, rest);
    DurableFixpoint(ev);
    hide DecodeEvent, EventBytes, Durable, FaithfulTimes;
  }

  lemma DurableFixpoint(ev: Event)
    ensures Durable(ev).(fileOffset := 0) == ev <==> FaithfulTimes(ev) && ev.fileOffset == 0
  {
    hide Valid;
    assert Durable(ev).(fileOffset := 0)
        == ev.(createdAt := Durable(ev).createdAt, closedAt := Durable(ev).closedAt, fileOffset := 0);
  }

  /** No proper prefix of a record decodes. */
  lemma ProperPrefixRejected(ev: Event, dim: u16, k: nat)
    requires Encodable(ev, dim) && k < |EventBytes(ev, dim)|
    ensures DecodeEvent(EventBytes(ev, dim)[..k], dim).Err?
  {
    if k >= EVENT_HEADER_SIZE {
      var b := EventBytes(ev, dim);
      EventAtEncoded(ev, dim, []);
      assert b + [] == b;
      hide EventBytes, ReadFixed, EventAt, ExpectedLen, Durable, DecodeEvent;
      SameFixed(b, b[..k]);
    }
    CutShort(EventBytes(ev, dim)[..k], dim);
  }

  lemma CutShort(b: Bytes, dim: u16)
    ensures |b| < EVENT_HEADER_SIZE || |b| < ReadFixed(b).recordLen ==> DecodeEvent(b, dim).Err?
  {
    hide ReadFixed, EventAt, ExpectedLen;
  }

  lemma SameFixed(a: Bytes, b: Bytes)
    requires |a| >= EVENT_HEADER_SIZE && |b| >= EVENT_HEADER_SIZE
    requires a[..EVENT_HEADER_SIZE] == b[..EVENT_HEADER_SIZE]
    ensures ReadFixed(a) == ReadFixed(b)
  {
    var f := ReadFixed(a);
    FixedBytesRead(a);
    hide FixedBytes, ReadFixed;
    assert b == FixedBytes(f) + b[EVENT_HEADER_SIZE..];
    ReadFixedBytes(f, b[EVENT_HEADER_SIZE..]);
  }

  /** What the encoder returns. */
  function Encoded(ev: Event, dim: u16): Result<Bytes, FormatError> {
    match EncodeFailure(ev, dim)
    case Some(e) => Err(e)
    case None => Ok(EventBytes(ev, dim))
  }

  /** The three text fields of the record at the head of `buf` are UTF-8. */
  predicate TextFieldsValid(buf: Bytes)
    requires |buf| >= EVENT_HEADER_SIZE && |buf| >= VectorAt(ReadFixed(buf))
  {
    var f := ReadFixed(buf);
    && Valid(buf[ContentAt(f)..TopicAt(f)])
    && Valid(buf[TopicAt(f)..CostAt(f)])
    && Valid(buf[CostAt(f)..VectorAt(f)])
  }

  /** The codec is canonical: an accepted record re-encodes to the bytes it was read from exactly
      when its text fields are UTF-8 (otherwise the lossy decoder has rewritten them). */
  lemma ReencodeIffTextValid(buf: Bytes, dim: u16)
    requires DecodeEvent(buf, dim).Ok?
    ensures var (ev, n) := DecodeEvent(buf, dim).value;
            Encoded(ev, dim) == Ok(buf[..n]) <==> TextFieldsValid(buf)
  {
    var (ev, n) := DecodeEvent(buf, dim).value;
    if TextFieldsValid(buf) {
      ReencodeValid(buf, dim);
    } else if Encoded(ev, dim) == Ok(buf[..n]) {
      ReencodedIsValid(buf, dim);
    }
  }

  lemma ReencodeValid(buf: Bytes, dim: u16)
    requires DecodeEvent(buf, dim).Ok? && TextFieldsValid(buf)
    ensures Encodable(EventAt(buf, dim), dim)
    ensures EventBytes(EventAt(buf, dim), dim) == buf[..DecodeEvent(buf, dim).value.1]
  {
    hide FixedBytes, ReadFixed, RefsBytes, ReadRefs, VectorBytes, ReadVector, Lossy, Valid;
    var f, ev := ReadFixed(buf), EventAt(buf, dim);
    LossyKeepsValid(buf[ContentAt(f)..TopicAt(f)]);
    LossyKeepsValid(buf[TopicAt(f)..CostAt(f)]);
    LossyKeepsValid(buf[CostAt(f)..VectorAt(f)]);
    RefsCanonical(buf[EVENT_HEADER_SIZE..ContentAt(f)], f.refsCount);
    VectorCanonical(buf[VectorAt(f)..ExpectedLen(f, dim)], dim);
    FixedBytesRead(buf);
    assert EventFixed(ev, dim) == f;
    SixPieces(buf, EVENT_HEADER_SIZE, ContentAt(f), TopicAt(f), CostAt(f), VectorAt(f), ExpectedLen(f, dim));
  }

  lemma SixPieces(b: Bytes, i: nat, j: nat, k: nat, l: nat, m: nat, n: nat)
    requires i <= j <= k <= l <= m <= n <= |b|
    ensures b[..i] + b[i..j] + b[j..k] + b[k..l] + b[l..m] + b[m..n] == b[..n]
  {
  }

  lemma ReencodedIsValid(buf: Bytes, dim: u16)
    requires DecodeEvent(buf, dim).Ok?
    requires Encoded(EventAt(buf, dim), dim) == Ok(buf[..DecodeEvent(buf, dim).value.1])
    ensures TextFieldsValid(buf)
  {
    hide FixedBytes, ReadFixed, RefsBytes, ReadRefs, VectorBytes, ReadVector, Lossy, Valid, EventBytes;
    var f, ev := ReadFixed(buf), EventAt(buf, dim);
    var b := EventBytes(ev, dim);
    EventAtEncoded(ev, dim, []);
    assert b + [] == b;
    SameFixed(b, buf);
    EncodedTexts(ev, dim);
    SliceOfPrefix(b, buf, ContentAt(f), TopicAt(f));
    SliceOfPrefix(b, buf, TopicAt(f), CostAt(f));
    SliceOfPrefix(b, buf, CostAt(f), VectorAt(f));
  }

  lemma SliceOfPrefix(b: Bytes, buf: Bytes, i: nat, j: nat)
    requires b <= buf && i <= j <= |b|
    ensures b[i..j] == buf[i..j]
  {
  }

  /** Where the text fields of an encoded event lie. */
  lemma EncodedTexts(ev: Event, dim: u16)
    requires Encodable(ev, dim)
    ensures var f, b := EventFixed(ev, dim), EventBytes(ev, dim);
            && b[ContentAt(f)..TopicAt(f)] == ev.content
            && b[TopicAt(f)..CostAt(f)] == ev.topic
            && b[CostAt(f)..VectorAt(f)] == ev.cost
  {
    hide FixedBytes, RefsBytes, VectorBytes, Valid;
  }

  /** What decodes keeps decoding to the same event when more bytes follow. */
  lemma DecodeExtends(buf: Bytes, dim: u16, rest: Bytes)
    requires DecodeEvent(buf, dim).Ok?
    ensures DecodeEvent(buf + rest, dim) == DecodeEvent(buf, dim)
  {
    var f := ReadFixed(buf);
    assert (buf + rest)[..EVENT_HEADER_SIZE] == buf[..EVENT_HEADER_SIZE];
    SameFixed(buf, buf + rest);
    SameEvent(buf, dim, rest);
    hide ReadFixed, EventAt;
  }

  lemma SameEvent(buf: Bytes, dim: u16, rest: Bytes)
    requires |buf| >= EVENT_HEADER_SIZE && |buf| >= ExpectedLen(ReadFixed(buf), dim)
    requires ReadFixed(buf + rest) == ReadFixed(buf)
    ensures EventAt(buf + rest, dim) == EventAt(buf, dim)
  {
    hide ReadFixed, ReadRefs, ReadVector, DecodeUtf8, FromWord;
    var f, b := ReadFixed(buf), buf + rest;
    assert b[EVENT_HEADER_SIZE..ContentAt(f)] == buf[EVENT_HEADER_SIZE..ContentAt(f)];
    assert b[ContentAt(f)..TopicAt(f)] == buf[ContentAt(f)..TopicAt(f)];
    assert b[TopicAt(f)..CostAt(f)] == buf[TopicAt(f)..CostAt(f)];
    assert b[CostAt(f)..VectorAt(f)] == buf[CostAt(f)..VectorAt(f)];
    assert b[VectorAt(f)..ExpectedLen(f, dim)] == buf[VectorAt(f)..ExpectedLen(f, dim)];
  }

  // ── Index entries ───────────────────────────────────────────────────────────

  function IdxBytes(r: IdxRecord): (b: Bytes)
    ensures |b| == IDX_RECORD_SIZE
  {
    Le64(r.eventId) + Le64(r.fileOffset) + Le32(r.recordLen) + Le64(ToWord(TimeToNanos(r.createdAt)))
  }

  function DecodeIdx(b: Bytes): Result<IdxRecord, FormatError> {
    if |b| < IDX_RECORD_SIZE then Err(ShortBuffer(IDX_RECORD_SIZE, |b|)) else
    Ok(IdxRecord(Rd64(b[0..8]), Rd64(b[8..16]), Rd32(b[16..20]), FromWord(Rd64(b[20..28]))))
  }

  /** An index entry followed by anything is read back, except that an unrepresentable time becomes the epoch. */
  lemma DecodeIdxBytes(r: IdxRecord, rest: Bytes)
    ensures DecodeIdx(IdxBytes(r) + rest) == Ok(r.(createdAt := TimeToNanos(r.createdAt)))
  {
    hide Le32, Le64, Rd32, Rd64;
    var b := IdxBytes(r) + rest;
    assert b[0..8] == Le64(r.eventId) && b[8..16] == Le64(r.fileOffset);
    assert b[16..20] == Le32(r.recordLen) && b[20..28] == Le64(ToWord(TimeToNanos(r.createdAt)));
    RoundTrip64(r.eventId); RoundTrip64(r.fileOffset); RoundTrip32(r.recordLen);
    RoundTrip64(ToWord(TimeToNanos(r.createdAt)));
  }

  // ── Meta header ─────────────────────────────────────────────────────────────

  const RESERVED: Bytes := [0, 0, 0, 0, 0, 0, 0, 0, 0, 0, 0, 0, 0, 0, 0, 0]

  function MetaBytes(h: MetaHeader): (b: Bytes)
    ensures |b| == META_HEADER_SIZE
  {
    Le32(h.magic) + Le16(h.version) + Le16(h.vectorDim) + Le64(h.lastEventId) + Le64(h.eventCount) + Le64(h.streamCount)
    + Le64(ToWord(TimeToNanos(h.createdAt))) + Le64(ToWord(OptTimeToNanos(h.lastSnapshotAt))) + RESERVED
  }

  function DecodeMeta(b: Bytes): Result<MetaHeader, FormatError> {
    if |b| < META_HEADER_SIZE then Err(ShortBuffer(META_HEADER_SIZE, |b|)) else
    var magic := Rd32(b[0..4]);
    if magic != FILE_MAGIC then Err(BadMagic(magic)) else
    var version := Rd16(b[4..6]);
    if version > FORMAT_VERSION then Err(FutureVersion(version)) else
    Ok(MetaHeader(magic, version, Rd16(b[6..8]), Rd64(b[8..16]), Rd64(b[16..24]), Rd64(b[24..32]),
                  FromWord(Rd64(b[32..40])), NanosToOptTime(FromWord(Rd64(b[40..48])))))
  }

  function DurableMeta(h: MetaHeader): MetaHeader {
    h.(createdAt := TimeToNanos(h.createdAt), lastSnapshotAt := NanosToOptTime(OptTimeToNanos(h.lastSnapshotAt)))
  }

  lemma DecodeMetaBytes(h: MetaHeader)
    ensures DecodeMeta(MetaBytes(h)) ==
      if h.magic != FILE_MAGIC then Err(BadMagic(h.magic))
      else if h.version > FORMAT_VERSION then Err(FutureVersion(h.version))
      else Ok(DurableMeta(h))
  {
    hide Le16, Le32, Le64, Rd16, Rd32, Rd64;
    var b := MetaBytes(h);
    assert b[0..4] == Le32(h.magic) && b[4..6] == Le16(h.version) && b[6..8] == Le16(h.vectorDim);
    assert b[8..16] == Le64(h.lastEventId) && b[16..24] == Le64(h.eventCount) && b[24..32] == Le64(h.streamCount);
    assert b[32..40] == Le64(ToWord(TimeToNanos(h.createdAt)));
    assert b[40..48] == Le64(ToWord(OptTimeToNanos(h.lastSnapshotAt)));
    RoundTrip32(h.magic); RoundTrip16(h.version); RoundTrip16(h.vectorDim);
    RoundTrip64(h.lastEventId); RoundTrip64(h.eventCount); RoundTrip64(h.streamCount);
    RoundTrip64(ToWord(TimeToNanos(h.createdAt)));
    RoundTrip64(ToWord(OptTimeToNanos(h.lastSnapshotAt)));
  }
}
