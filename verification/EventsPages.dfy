/** The events page in place: parallel slices grown record by record, encoded and decoded with cursors. */
module EventsPages {
  import opened Prelude
  import opened Bytes
  import opened Names
  import opened Frames
  import opened Codec
  import opened EventsCatalog
  import opened EventsWal
  import opened EventsFrames

  datatype AddError = PageIdOutOfRange | PageBadType

  function AddCheck(r: Record): Option<AddError> {
    if r.id == 0 || r.id > MAX_EVENTS then Some(PageIdOutOfRange)
    else if !ValidType(r.valueType) then Some(PageBadType)
    else None
  }

  function Zip(ids: seq<nat>, times: seq<Timestamp>, types: seq<byte>, raws: seq<nat>, payloads: seq<bytes>)
    : (rs: seq<Record>)
    requires |times| == |types| == |raws| == |payloads| == |ids|
    ensures |rs| == |ids|
  {
    seq(|ids|, i requires 0 <= i < |ids| => Record(ids[i], times[i], types[i], raws[i], payloads[i]))
  }

  lemma ZipSnoc(ids: seq<nat>, times: seq<Timestamp>, types: seq<byte>, raws: seq<nat>, payloads: seq<bytes>, r: Record)
    requires |times| == |types| == |raws| == |payloads| == |ids|
    ensures Zip(ids + [r.id], times + [r.ts], types + [r.valueType], raws + [r.raw], payloads + [r.payload])
            == Zip(ids, times, types, raws, payloads) + [r]
  {
  }

  /** How one more record changes what is kept beside the slices. */
  lemma SummarySnoc(rs: seq<Record>, r: Record)
    ensures r.id < BITMAP_BITS ==> BitsOf(rs + [r]) == BitsOf(rs)[r.id := true]
    ensures PayloadBytes(rs + [r]) == PayloadBytes(rs) + |r.payload|
    ensures MinTs(rs + [r]) == if rs == [] then r.ts else Min(MinTs(rs), r.ts)
    ensures MaxTs(rs + [r]) == if rs == [] then r.ts else Max(MaxTs(rs), r.ts)
  {
    assert (rs + [r])[..|rs|] == rs;
  }

  class EventsPage {
    var start: Timestamp
    var end: Timestamp
    var eventIDs: seq<nat>
    var times: seq<Timestamp>
    var valueTypes: seq<byte>
    var valuesRaw: seq<nat>
    var payloads: seq<bytes>
    var eventIDSet: Bitmap
    var payloadBytes: nat
    const limits: Limits

    /** The records of the page, read across the parallel slices. */
    function Records(): (rs: seq<Record>)
      requires Aligned()
      reads this
      ensures |rs| == |eventIDs|
    {
      Zip(eventIDs, times, valueTypes, valuesRaw, payloads)
    }

    predicate Aligned()
      reads this
    {
      |times| == |valueTypes| == |valuesRaw| == |payloads| == |eventIDs|
    }

    /** The running fields agree with the records they summarise. */
    ghost predicate Valid()
      reads this
    {
      && Aligned()
      && eventIDSet == BitsOf(Records())
      && payloadBytes == PayloadBytes(Records())
      && (Records() != [] ==> start == MinTs(Records()) && end == MaxTs(Records()))
    }

    constructor (firstTS: Timestamp, lim: Limits)
      ensures Valid() && Records() == [] && limits == lim
    {
      start, end := firstTS, firstTS;
      eventIDs, times, valueTypes, valuesRaw, payloads := [], [], [], [], [];
      eventIDSet, payloadBytes := NoBits(), 0;
      limits := lim;
    }

    method AppendSlices(rec: Record)
      requires Aligned()
      modifies this
      ensures Aligned() && Records() == old(Records()) + [rec]
      ensures start == old(start) && end == old(end) && eventIDSet == old(eventIDSet)
      ensures payloadBytes == old(payloadBytes) + |rec.payload|
    {
      ZipSnoc(eventIDs, times, valueTypes, valuesRaw, payloads, rec);
      eventIDs := eventIDs + [rec.id];
      times := times + [rec.ts];
      valueTypes := valueTypes + [rec.valueType];
      valuesRaw := valuesRaw + [rec.raw];
      payloads := payloads + [rec.payload];
      payloadBytes := payloadBytes + |rec.payload|;
    }

    method ExtendBounds(ts: Timestamp)
      modifies this`start, this`end
      ensures start == if |times| == 0 then ts else Min(old(start), ts)
      ensures end == if |times| == 0 then ts else Max(old(end), ts)
    {
      if |times| == 0 {
        start := ts;
        end := ts;
      } else {
        if ts < start {
          start := ts;
        }
        if ts > end {
          end := ts;
        }
      }
    }

    method AddEvent(id: nat, ts: Timestamp, valueType: byte, valueRaw: nat, payload: bytes) returns (err: Option<AddError>)
      requires Valid()
      modifies this
      ensures Valid() && err == AddCheck(Record(id, ts, valueType, valueRaw, payload))
      ensures Records() == old(Records()) + if err.None? then [Record(id, ts, valueType, valueRaw, payload)] else []
    {
      hide Zip, BitsOf, PayloadBytes, MinTs, MaxTs;
      if id == 0 || id > MAX_EVENTS { return Some(PageIdOutOfRange); }
      if !ValidType(valueType) { return Some(PageBadType); }
      SummarySnoc(Records(), Record(id, ts, valueType, valueRaw, payload));
      ExtendBounds(ts);
      AppendSlices(Record(id, ts, valueType, valueRaw, payload));
      eventIDSet := eventIDSet[id := true];
      return None;
    }

    method SizeBytes() returns (n: nat)
      requires Valid()
      ensures n == SizeOf(Records())
    {
      n := |eventIDs| * (2 + 8 + 1 + 4) + payloadBytes;
    }

    method IsFull(aged: bool) returns (full: bool)
      requires Valid()
      ensures full == Full(Records(), limits, aged)
    {
      if |eventIDs| >= limits.Records() { return true; }
      var size := SizeBytes();
      if size >= limits.Bytes() { return true; }
      return aged;
    }

    method ForceFlush() returns (must: bool)
      requires Valid()
      ensures must == MustForceFlush(Records(), limits)
    {
      if limits.maxInMemoryBytes <= 0 { return false; }
      var size := SizeBytes();
      return size >= limits.maxInMemoryBytes;
    }

    method EncodeRecord(i: nat, payload: bytes) returns (r: bytes)
      requires Valid() && i < |eventIDs|
      ensures r == payload + RecordBytes(Records()[i])
    {
      r := payload + LE(eventIDs[i], 2);
      r := r + LETs(times[i]);
      if valueTypes[i] != VALUE_NONE {
        r := r + LE(valuesRaw[i], 4);
      }
      r := r + PutUvarint(|payloads[i]|);
      r := r + payloads[i];
    }

    method EncodePayload() returns (payload: bytes)
      requires Valid()
      ensures payload == Concat(RecordBytes, Records())
    {
      payload := [];
      ghost var rs := Records();
      for i := 0 to |eventIDs|
        invariant payload == Concat(RecordBytes, rs[..i])
      {
        payload := EncodeRecord(i, payload);
        assert rs[..i + 1] == rs[..i] + [rs[i]];
        ConcatSnoc(RecordBytes, rs[..i], rs[i]);
      }
      assert rs[..|rs|] == rs;
    }

    /** Serialises the page as one frame. */
    method EncodeInto(codec: Codec) returns (r: Result<bytes, PageError>)
      requires Valid()
      ensures match r
              case Err(e) => e == if Records() == [] then EmptyPage else FrameTooLarge
              case Ok(b) => Records() != [] && b == Frame(codec, Records())
      ensures r.Ok? <==> Records() != [] && |Compressed(codec, Records())| <= MAX_FRAME_PAYLOAD
    {
      var n := |eventIDs|;
      if n == 0 { return Err(EmptyPage); }
      var payload := EncodePayload();
      var compressed := codec.compress(payload);
      if |compressed| > MAX_FRAME_PAYLOAD { return Err(FrameTooLarge); }
      var h := Header(start, end, n, eventIDSet, |compressed|);
      return Ok(HeaderBytes(h) + compressed + LE(codec.crc(compressed), 4));
    }

    method DecodeRecordsInto(payload: bytes, n: nat, cat: EventCatalog) returns (err: Option<PageError>)
      requires Aligned() && Records() == []
      modifies this
      ensures match DecodeRecords(payload, n, cat.View())
              case Err(e) => err == Some(e)
              case Ok(rs) => err == None && Aligned() && Records() == rs
      ensures start == old(start) && end == old(end) && eventIDSet == old(eventIDSet)
    {
      hide RecordStep, ReadCount, Zip;
      var pos: nat := 0;
      ghost var c := cat.View();
      for i := 0 to n
        invariant pos <= |payload| && Aligned()
        invariant ReadCount(RecordStep, payload, n, c)
                  == Resume(Records(), pos, ReadCount(RecordStep, payload[pos..], n - i, c))
        invariant start == old(start) && end == old(end) && eventIDSet == old(eventIDSet)
      {
        CountTurn(RecordStep, payload, pos, n - i, c, Records());
        var turn := ReadPageRecord(payload, pos, cat);
        if turn.Fail? {
          return Some(turn.error);
        }
        AppendSlices(turn.item);
        pos := pos + turn.used;
      }
      NoneLeft(RecordStep, payload, pos, c, Records());
      if pos != |payload| { return Some(TrailingPageBytes); }
      return None;
    }

    /** Refills the page from a frame whose header, payload and trailer have been read. */
    method DecodeFromFrame(codec: Codec, h: Header, compressed: bytes, expectedCRC: nat, cat: EventCatalog)
      returns (err: Option<PageError>)
      modifies this
      ensures match DecodePage(codec, h, compressed, expectedCRC, cat.View())
              case Err(e) => err == Some(e)
              case Ok(rs) => err == None && Aligned() && Records() == rs && start == h.start && end == h.end && eventIDSet == h.bits
    {
      if h.compressedLen != |compressed| % TWO_32 { return Some(LengthMismatch); }
      if codec.crc(compressed) != expectedCRC { return Some(CrcMismatch); }
      var payload := codec.decompress(compressed);
      if payload.None? { return Some(BadCompression); }
      start, end, eventIDSet := h.start, h.end, h.bits;
      eventIDs, times, valueTypes, valuesRaw, payloads, payloadBytes := [], [], [], [], [], 0;
      err := DecodeRecordsInto(payload.value, h.count, cat);
    }
  }

  /** One turn of a loop that reads n more items from position pos. */
  lemma CountTurn<S, D, E>(step: (bytes, S) -> Step<S, D, E>, b: bytes, pos: nat, n: nat, s: S, items: seq<D>)
    requires pos <= |b| && n > 0
    ensures var r := Resume(items, pos, ReadCount(step, b[pos..], n, s));
            match step(b[pos..], s)
            case Stop => true
            case Fail(e) => r == Failed(e)
            case More(d, s', k) =>
              k <= |b| - pos ==> r == Resume(items + [d], pos + k, ReadCount(step, b[pos + k..], n - 1, s'))
  {
    match step(b[pos..], s)
    case Stop =>
    case Fail(_) =>
    case More(d, s', k) =>
      if k <= |b| - pos {
        assert b[pos..][k..] == b[pos + k..];
        match ReadCount(step, b[pos + k..], n - 1, s')
        case Failed(_) =>
        case Scanned(ds, _, _) => assert items + ([d] + ds) == items + [d] + ds;
      }
  }

  lemma NoneLeft<S, D, E>(step: (bytes, S) -> Step<S, D, E>, b: bytes, pos: nat, s: S, items: seq<D>)
    requires pos <= |b|
    ensures Resume(items, pos, ReadCount(step, b[pos..], 0, s)) == Scanned(items, s, pos)
  {
  }

  method ReadPageRecord(payload: bytes, start: nat, cat: EventCatalog) returns (s: Step<Catalog, Record, PageError>)
    requires start <= |payload|
    ensures s == RecordStep(payload[start..], cat.View())
    ensures s.More? ==> 0 < s.used <= |payload| - start && s.state == cat.View()
    ensures !s.Stop?
  {
    var b := payload[start..];
    var pos := 0;
    if pos + 2 + 8 > |b| { return Fail(TruncatedRecord); }
    var id := LEVal(Sub(b, pos, 2));
    pos := pos + 2;
    var ts := TsVal(Sub(b, pos, 8));
    pos := pos + 8;
    if id !in cat.idToName { return Fail(UnknownId); }
    var name := cat.idToName[id];
    var valueType := if name in cat.events then cat.events[name].valueType else VALUE_NONE;
    var tail := ReadValueAndPayload(b, pos, valueType);
    match tail {
      case Fail(e) => return Fail(e);
      case More((raw, payloadBytes), _, used) =>
        return More(Record(id, ts, valueType, raw, payloadBytes), cat.View(), used);
    }
  }

  method ReadValueAndPayload(b: bytes, start: nat, valueType: byte) returns (s: Step<(), (nat, bytes), PageError>)
    requires start <= |b|
    ensures s == DecodeRecordTail(b, start, valueType) && !s.Stop?
  {
    var pos, raw := start, 0;
    if valueType != VALUE_NONE {
      if pos + 4 > |b| { return Fail(TruncatedRecordValue); }
      raw := LEVal(Sub(b, pos, 4));
      pos := pos + 4;
    }
    match Uvarint(b[pos..]) {
      case None => return Fail(MalformedLength);
      case Some((payloadLen, n)) =>
        pos := pos + n;
        if pos + payloadLen >= TWO_63 { return Fail(RecordPanic); }
        if pos + payloadLen > |b| { return Fail(TruncatedRecordPayload); }
        return More((raw, Sub(b, pos, payloadLen)), (), pos + payloadLen);
    }
  }
}
