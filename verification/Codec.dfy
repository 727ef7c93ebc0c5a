/** The event codec as it runs: buffers filled and walked in place with a moving offset.
    Every method is proved to compute the specification in `Format`. */
module Codec {
  import opened Prelude
  import opened LittleEndian
  import opened Utf8
  import opened Format

  /** `buf[at..at + src.len()].copy_from_slice(src)`. */
  method CopyInto(buf: array<byte>, at: nat, src: Bytes)
    requires at + |src| <= buf.Length
    modifies buf
    ensures buf[..at] == old(buf[..at])
    ensures buf[..at + |src|] == old(buf[..at]) + src
  {
    forall i | 0 <= i < |src| {
      buf[at + i] := src[i];
    }
    assert buf[at..at + |src|] == src;
    assert buf[..at + |src|] == buf[..at] + buf[at..at + |src|];
  }

  /** Serialises an event, or reports the first field the format cannot hold. The closing
      length check of the program is kept; the contract shows that it never fires. */
  method EncodeEvent(ev: Event, dim: u16) returns (r: Result<Bytes, FormatError>)
    ensures r == Encoded(ev, dim)
  {
    if |ev.refs| > MAX_FIELD_LEN { return Err(FieldTooLarge("refs", |ev.refs|)); }
    if |ev.content| > MAX_FIELD_LEN { return Err(FieldTooLarge("content", |ev.content|)); }
    if |ev.topic| > MAX_FIELD_LEN { return Err(FieldTooLarge("topic", |ev.topic|)); }
    if |ev.cost| > MAX_FIELD_LEN { return Err(FieldTooLarge("cost", |ev.cost|)); }
    if |ev.vector| != dim { return Err(VectorDimension(|ev.vector|, dim)); }

    var recordLen := EventRecordSize(ev, dim);
    var buf := new byte[recordLen];
    var off := FillRecord(ev, dim, buf);
    if off != recordLen {
      return Err(RecordLen(recordLen, off));
    }
    assert buf[..] == buf[..off];
    return Ok(buf[..]);
  }

  method FillRecord(ev: Event, dim: u16, buf: array<byte>) returns (off: nat)
    requires Encodable(ev, dim) && buf.Length == EventRecordSize(ev, dim)
    modifies buf
    ensures off == buf.Length && buf[..off] == EventBytes(ev, dim)
  {
    hide FixedBytes, RefsBytes, VectorBytes, EventFixed, Valid;
    EncodeHeader(ev, dim, buf);
    off := EVENT_HEADER_SIZE;
    off := EncodeRefs(ev.refs, buf, off);
    CopyInto(buf, off, ev.content);
    off := off + |ev.content|;
    CopyInto(buf, off, ev.topic);
    off := off + |ev.topic|;
    CopyInto(buf, off, ev.cost);
    off := off + |ev.cost|;
    off := EncodeVector(ev.vector, buf, off);
  }

  method EncodeHeader(ev: Event, dim: u16, buf: array<byte>)
    requires Encodable(ev, dim) && buf.Length == EventRecordSize(ev, dim)
    modifies buf
    ensures buf[..EVENT_HEADER_SIZE] == FixedBytes(EventFixed(ev, dim))
  {
    hide LeadBytes, CountBytes;
    var f := EventFixed(ev, dim);
    EncodeLead(f, buf);
    buf[36], buf[37], buf[38], buf[39], buf[40] := ev.eventType, ev.outcome, ev.confidence, ev.flags, ev.trace;
    assert buf[..41] == buf[..36] + [ev.eventType, ev.outcome, ev.confidence, ev.flags, ev.trace];
    EncodeCounts(f, buf);
  }

  method EncodeLead(f: Fixed, buf: array<byte>)
    requires buf.Length >= EVENT_HEADER_SIZE
    modifies buf
    ensures buf[..36] == LeadBytes(f)
  {
    hide Le32, Le64;
    CopyInto(buf, 0, Le32(f.recordLen));
    CopyInto(buf, 4, Le64(f.id));
    CopyInto(buf, 12, Le64(f.streamId));
    CopyInto(buf, 20, Le64(f.createdAt));
    CopyInto(buf, 28, Le64(f.closedAt));
  }

  method EncodeCounts(f: Fixed, buf: array<byte>)
    requires buf.Length >= EVENT_HEADER_SIZE
    modifies buf
    ensures buf[..EVENT_HEADER_SIZE] == old(buf[..41]) + CountBytes(f)
  {
    hide Le16;
    CopyInto(buf, 41, Le16(f.refsCount));
    CopyInto(buf, 43, Le16(f.contentLen));
    CopyInto(buf, 45, Le16(f.topicLen));
    CopyInto(buf, 47, Le16(f.costLen));
  }

  method EncodeRefs(refs: seq<Ref>, buf: array<byte>, at: nat) returns (off: nat)
    requires at + |refs| * REF_SIZE <= buf.Length
    modifies buf
    ensures off == at + |refs| * REF_SIZE
    ensures buf[..off] == old(buf[..at]) + RefsBytes(refs)
  {
    hide RefBytes;
    off := at;
    for i := 0 to |refs|
      invariant off == at + i * REF_SIZE
      invariant buf[..off] + RefsBytes(refs[i..]) == old(buf[..at]) + RefsBytes(refs)
    {
      ghost var before := buf[..off];
      EncodeRef(refs[i], buf, off);
      off := off + REF_SIZE;
      assert refs[i..][1..] == refs[i + 1..];
      assert before + (RefBytes(refs[i]) + RefsBytes(refs[i + 1..])) == buf[..off] + RefsBytes(refs[i + 1..]);
    }
  }

  method EncodeRef(r: Ref, buf: array<byte>, off: nat)
    requires off + REF_SIZE <= buf.Length
    modifies buf
    ensures buf[..off + REF_SIZE] == old(buf[..off]) + RefBytes(r)
  {
    hide Le64;
    buf[off] := r.kind;
    assert buf[..off + 1] == old(buf[..off]) + [r.kind];
    CopyInto(buf, off + 1, Le64(r.targetEventId));
    CopyInto(buf, off + 9, Le64(r.targetOffsetCache));
  }

  method EncodeVector(v: seq<u32>, buf: array<byte>, at: nat) returns (off: nat)
    requires at + |v| * 4 <= buf.Length
    modifies buf
    ensures off == at + |v| * 4
    ensures buf[..off] == old(buf[..at]) + VectorBytes(v)
  {
    off := at;
    for i := 0 to |v|
      invariant off == at + i * 4
      invariant buf[..off] + VectorBytes(v[i..]) == old(buf[..at]) + VectorBytes(v)
    {
      ghost var before := buf[..off];
      CopyInto(buf, off, Le32(v[i]));
      off := off + 4;
      assert v[i..][1..] == v[i + 1..];
      assert before + (Le32(v[i]) + VectorBytes(v[i + 1..])) == buf[..off] + VectorBytes(v[i + 1..]);
    }
  }

  /** Decodes the record at the start of `buf`, never reading outside it. */
  method DecodeEventAt(buf: Bytes, dim: u16) returns (r: Result<(Event, nat), FormatError>)
    ensures r == DecodeEvent(buf, dim)
  {
    if |buf| < EVENT_HEADER_SIZE {
      return Err(ShortBuffer(EVENT_HEADER_SIZE, |buf|));
    }
    var f := ReadFixed(buf);
    if |buf| < f.recordLen {
      return Err(ShortBuffer(f.recordLen, |buf|));
    }
    var expected := EVENT_HEADER_SIZE + f.refsCount * REF_SIZE + f.contentLen + f.topicLen + f.costLen + dim * 4;
    if expected != f.recordLen {
      return Err(RecordLen(f.recordLen, expected));
    }

    var ev := DecodeFields(buf, dim, f);
    return Ok((ev, f.recordLen));
  }

  method DecodeFields(buf: Bytes, dim: u16, f: Fixed) returns (ev: Event)
    requires |buf| >= EVENT_HEADER_SIZE && f == ReadFixed(buf) && |buf| >= ExpectedLen(f, dim)
    ensures ev == EventAt(buf, dim)
  {
    hide ReadFixed, ReadRefs, ReadVector, DecodeUtf8, Valid, FromWord;
    var off := EVENT_HEADER_SIZE;
    var refs := DecodeRefs(buf[off..off + f.refsCount * REF_SIZE], f.refsCount);
    off := off + f.refsCount * REF_SIZE;
    var content := DecodeUtf8(buf[off..off + f.contentLen]);
    off := off + f.contentLen;
    var topic := DecodeUtf8(buf[off..off + f.topicLen]);
    off := off + f.topicLen;
    var cost := DecodeUtf8(buf[off..off + f.costLen]);
    off := off + f.costLen;
    var vector := DecodeVector(buf[off..off + dim * 4], dim);
    ev := Event(f.id, f.streamId, FromWord(f.createdAt), NanosToOptTime(FromWord(f.closedAt)),
                f.eventType, f.outcome, f.confidence, f.flags, f.trace,
                refs, content, topic, cost, vector, 0);
  }

  method DecodeRefs(b: Bytes, n: nat) returns (refs: seq<Ref>)
    requires |b| == n * REF_SIZE
    ensures refs == ReadRefs(b, n)
  {
    hide ReadRef;
    refs := [];
    var off := 0;
    for i := 0 to n
      invariant off == i * REF_SIZE
      invariant refs + ReadRefs(b[off..], n - i) == ReadRefs(b, n)
    {
      assert b[off..][..REF_SIZE] == b[off..off + REF_SIZE];
      assert b[off..][REF_SIZE..] == b[off + REF_SIZE..];
      refs := refs + [ReadRef(b[off..off + REF_SIZE])];
      off := off + REF_SIZE;
    }
  }

  method DecodeVector(b: Bytes, n: nat) returns (v: seq<u32>)
    requires |b| == n * 4
    ensures v == ReadVector(b, n)
  {
    v := [];
    var off := 0;
    for i := 0 to n
      invariant off == i * 4
      invariant v + ReadVector(b[off..], n - i) == ReadVector(b, n)
    {
      VectorStep(b, off, n - i);
      v := v + [Rd32(b[off..off + 4])];
      off := off + 4;
    }
  }

  lemma VectorStep(b: Bytes, off: nat, n: nat)
    requires n > 0 && off + n * 4 == |b|
    ensures ReadVector(b[off..], n) == [Rd32(b[off..off + 4])] + ReadVector(b[off + 4..], n - 1)
  {
    assert b[off..][..4] == b[off..off + 4];
    assert b[off..][4..] == b[off + 4..];
  }
}
