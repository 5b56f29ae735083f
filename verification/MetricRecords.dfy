/**
 The fixed records of a V2 metric file: the file header, the two frame headers, the two index entries and the
 footer, as bytes and read back.
 */
module MetricRecords {
  import opened Prelude
  import opened Bytes
  import opened Codec

  const HEADER_LEN: int := 64
  const FRAME_HEADER_LEN: int := 48
  const TIME_ENTRY_LEN: int := 40
  const METRIC_ENTRY_LEN: int := 44
  const FOOTER_LEN: int := 16
  const VERSION: nat := 2
  const RAW_INT64: byte := 1

  const FILE_MAGIC: bytes := [78, 84, 77, 70]
  const FOOTER_MAGIC: bytes := [78, 84, 70, 84]
  const TIME_MAGIC: bytes := [84, 80, 71, 50]
  const METRIC_MAGIC: bytes := [77, 80, 71, 50]

  /** The checksum, and the block codecs by id. */
  datatype Env = Env(crc: bytes -> nat, lookup: nat -> Option<Codec>)

  datatype ReadError =
    | ShortRead
    | BadMagic
    | BadVersion
    | BadHeaderLen
    | BadChecksum
    | ReservedNotZero
    | IndexMismatch
    | BoundsMismatch
    | OverCap
    | UnknownCodec
    | BadCompression
    | BadDecodedLen
    | UnsupportedEncoding
    | BadShape
    | BadValueType
    | MissingTimeFrame
    | ValueTypeMismatch
    | SliceOutOfBounds

  // ---------------------------------------------------------------- fixed layouts

  function Join(parts: seq<bytes>): (b: bytes) {
    if parts == [] then [] else parts[0] + Join(parts[1..])
  }

  function Total(widths: seq<nat>): (n: nat) {
    if widths == [] then 0 else widths[0] + Total(widths[1..])
  }

  /** b cut into fields of the given widths. */
  function Split(b: bytes, widths: seq<nat>): (parts: seq<bytes>)
    requires Total(widths) <= |b|
    ensures |parts| == |widths|
    ensures forall i :: 0 <= i < |widths| ==> |parts[i]| == widths[i]
  {
    if widths == [] then [] else [b[..widths[0]]] + Split(b[widths[0]..], widths[1..])
  }

  ghost predicate Sized(parts: seq<bytes>, widths: seq<nat>) {
    |parts| == |widths| && forall i :: 0 <= i < |widths| ==> |parts[i]| == widths[i]
  }

  lemma {:induction false} SplitJoin(parts: seq<bytes>, widths: seq<nat>)
    requires Sized(parts, widths)
    ensures |Join(parts)| == Total(widths) && Split(Join(parts), widths) == parts
    decreases |parts|
  {
    if parts != [] {
      assert Sized(parts[1..], widths[1..]);
      SplitJoin(parts[1..], widths[1..]);
      assert Join(parts)[..widths[0]] == parts[0] && Join(parts)[widths[0]..] == Join(parts[1..]);
    }
  }

  /** Fields followed by their checksum. */
  function Sealed(env: Env, parts: seq<bytes>): bytes {
    Join(parts) + LE(env.crc(Join(parts)), 4)
  }

  /** The fields of a sealed record, when its checksum holds. */
  function Unseal(env: Env, b: bytes, widths: seq<nat>): (r: Option<seq<bytes>>)
    requires |b| == Total(widths) + 4
    ensures r.Some? ==> |r.value| == |widths| && forall i :: 0 <= i < |widths| ==> |r.value[i]| == widths[i]
  {
    var n := Total(widths);
    if LEVal(Sub(b, n, 4)) != env.crc(b[..n]) then None else Some(Split(b[..n], widths))
  }

  lemma SealRoundTrip(env: Env, parts: seq<bytes>, widths: seq<nat>)
    requires Sized(parts, widths) && (forall x: bytes :: env.crc(x) < TWO_32)
    ensures |Sealed(env, parts)| == Total(widths) + 4
    ensures Unseal(env, Sealed(env, parts), widths) == Some(parts)
  {
    hide Join, Split, Total, LE, LEVal;
    SplitJoin(parts, widths);
    var j := Join(parts);
    PowWidths();
    LERoundTrip(env.crc(j), 4);
    assert Sealed(env, parts)[..|j|] == j;
    assert Sub(Sealed(env, parts), |j|, 4) == LE(env.crc(j), 4);
  }

  /** A field of k bytes holding n. */
  lemma Field(n: nat, k: nat)
    requires k in {2, 4, 8}
    requires n < (if k == 2 then TWO_16 else if k == 4 then TWO_32 else TWO_64)
    ensures |LE(n, k)| == k && LEVal(LE(n, k)) == n
  {
    PowWidths();
    LERoundTrip(n, k);
  }

  // ---------------------------------------------------------------- records

  datatype Header = Header(
    flags: nat, kind: byte, minTs: Timestamp, maxTs: Timestamp, timeCount: nat, metricCount: nat,
    timeIndex: nat, metricIndex: nat)

  function HeaderWidths(): seq<nat> { [4, 2, 2, 4, 1, 3, 8, 8, 4, 4, 8, 8, 4] }

  function HeaderParts(h: Header): seq<bytes> {
    [FILE_MAGIC, LE(VERSION, 2), LE(HEADER_LEN, 2), LE(h.flags, 4), [h.kind], [0, 0, 0], LETs(h.minTs), LETs(h.maxTs),
     LE(h.timeCount, 4), LE(h.metricCount, 4), LE(h.timeIndex, 8), LE(h.metricIndex, 8), LE(0, 4)]
  }

  function DecodeHeader(env: Env, b: bytes): (r: Result<Header, ReadError>)
    requires |b| == HEADER_LEN
  {
    if b[..4] != FILE_MAGIC then Err(BadMagic)
    else if LEVal(Sub(b, 4, 2)) != VERSION then Err(BadVersion)
    else if LEVal(Sub(b, 6, 2)) != HEADER_LEN then Err(BadHeaderLen)
    else
      assert Total(HeaderWidths()) == 60 by { HeaderTotal(); }
      match Unseal(env, b, HeaderWidths())
      case None => Err(BadChecksum)
      case Some(p) =>
        if LEVal(p[12]) != 0 then Err(ReservedNotZero)
        else
          Ok(Header(LEVal(p[3]), p[4][0], TsVal(p[6]), TsVal(p[7]), LEVal(p[8]), LEVal(p[9]), LEVal(p[10]), LEVal(p[11])))
  }

  lemma HeaderTotal()
    ensures Total(HeaderWidths()) == 60
  {
    var w := HeaderWidths();
    assert Total(w) == 4 + Total(w[1..]);
    assert Total(w[1..]) == 2 + Total(w[1..][1..]);
  }

  datatype TimeHeader = TimeHeader(
    codecId: nat, frameId: nat, encoding: byte, start: Timestamp, end: Timestamp, points: nat, payloadLen: nat, decodedLen: nat)

  function TimeWidths(): seq<nat> { [4, 2, 2, 2, 1, 1, 8, 8, 4, 4, 4, 4] }

  function TimeParts(h: TimeHeader): seq<bytes> {
    [TIME_MAGIC, LE(FRAME_HEADER_LEN, 2), LE(h.codecId, 2), LE(h.frameId, 2), [h.encoding], [0], LETs(h.start), LETs(h.end),
     LE(h.points, 4), LE(h.payloadLen, 4), LE(h.decodedLen, 4), LE(0, 4)]
  }

  lemma TimeTotal()
    ensures Total(TimeWidths()) == 44
  {
    var w := TimeWidths();
    assert Total(w) == 4 + Total(w[1..]);
    assert Total(w[1..]) == 2 + Total(w[1..][1..]);
  }

  function DecodeTimeHeader(env: Env, b: bytes): (r: Result<TimeHeader, ReadError>)
    requires |b| == FRAME_HEADER_LEN
  {
    if b[..4] != TIME_MAGIC then Err(BadMagic)
    else if LEVal(Sub(b, 4, 2)) != FRAME_HEADER_LEN then Err(BadHeaderLen)
    else if LEVal(Sub(b, 40, 4)) != 0 then Err(ReservedNotZero)
    else
      assert Total(TimeWidths()) == 44 by { TimeTotal(); }
      match Unseal(env, b, TimeWidths())
      case None => Err(BadChecksum)
      case Some(p) =>
        Ok(TimeHeader(LEVal(p[2]), LEVal(p[3]), p[4][0], TsVal(p[6]), TsVal(p[7]), LEVal(p[8]), LEVal(p[9]), LEVal(p[10])))
  }

  datatype MetricHeader = MetricHeader(
    codecId: nat, id: nat, valueType: byte, start: Timestamp, end: Timestamp, frameId: nat, offset: nat,
    payloadLen: nat, decodedLen: nat)

  function MetricWidths(): seq<nat> { [4, 2, 2, 2, 1, 1, 8, 8, 2, 2, 4, 4, 4] }

  function MetricParts(h: MetricHeader): seq<bytes> {
    [METRIC_MAGIC, LE(FRAME_HEADER_LEN, 2), LE(h.codecId, 2), LE(h.id, 2), [h.valueType], [0], LETs(h.start), LETs(h.end),
     LE(h.frameId, 2), LE(0, 2), LE(h.offset, 4), LE(h.payloadLen, 4), LE(h.decodedLen, 4)]
  }

  lemma MetricTotal()
    ensures Total(MetricWidths()) == 44
  {
    var w := MetricWidths();
    assert Total(w) == 4 + Total(w[1..]);
    assert Total(w[1..]) == 2 + Total(w[1..][1..]);
  }

  function DecodeMetricHeader(env: Env, b: bytes): (r: Result<MetricHeader, ReadError>)
    requires |b| == FRAME_HEADER_LEN
  {
    if b[..4] != METRIC_MAGIC then Err(BadMagic)
    else if LEVal(Sub(b, 4, 2)) != FRAME_HEADER_LEN then Err(BadHeaderLen)
    else if LEVal(Sub(b, 30, 2)) != 0 then Err(ReservedNotZero)
    else
      assert Total(MetricWidths()) == 44 by { MetricTotal(); }
      match Unseal(env, b, MetricWidths())
      case None => Err(BadChecksum)
      case Some(p) =>
        Ok(MetricHeader(LEVal(p[2]), LEVal(p[3]), p[4][0], TsVal(p[6]), TsVal(p[7]), LEVal(p[8]), LEVal(p[10]),
                        LEVal(p[11]), LEVal(p[12])))
  }

  datatype TimeEntry = TimeEntry(
    frameId: nat, at: nat, start: Timestamp, end: Timestamp, points: nat, decodedLen: nat, payloadLen: nat)

  function TimeEntryWidths(): seq<nat> { [2, 2, 8, 8, 8, 4, 4, 4] }

  function TimeEntryParts(e: TimeEntry): seq<bytes> {
    [LE(e.frameId, 2), LE(0, 2), LE(e.at, 8), LETs(e.start), LETs(e.end), LE(e.points, 4), LE(e.decodedLen, 4),
     LE(e.payloadLen, 4)]
  }

  lemma TimeEntryTotal()
    ensures Total(TimeEntryWidths()) == TIME_ENTRY_LEN
  {
    var w := TimeEntryWidths();
    assert Total(w) == 2 + Total(w[1..]);
    assert Total(w[1..]) == 2 + Total(w[1..][1..]);
  }

  function DecodeTimeEntry(b: bytes): (r: Result<TimeEntry, ReadError>)
    requires |b| == TIME_ENTRY_LEN
  {
    assert Total(TimeEntryWidths()) == TIME_ENTRY_LEN by { TimeEntryTotal(); }
    var p := Split(b, TimeEntryWidths());
    if LEVal(p[1]) != 0 then Err(ReservedNotZero)
    else Ok(TimeEntry(LEVal(p[0]), LEVal(p[2]), TsVal(p[3]), TsVal(p[4]), LEVal(p[5]), LEVal(p[6]), LEVal(p[7])))
  }

  datatype MetricEntry = MetricEntry(
    id: nat, valueType: byte, at: nat, start: Timestamp, end: Timestamp, frameId: nat, offset: nat,
    decodedLen: nat, payloadLen: nat)

  function MetricEntryWidths(): seq<nat> { [2, 1, 1, 8, 8, 8, 2, 2, 4, 4, 4] }

  function MetricEntryParts(e: MetricEntry): seq<bytes> {
    [LE(e.id, 2), [e.valueType], [0], LE(e.at, 8), LETs(e.start), LETs(e.end), LE(e.frameId, 2), LE(0, 2),
     LE(e.offset, 4), LE(e.decodedLen, 4), LE(e.payloadLen, 4)]
  }

  lemma MetricEntryTotal()
    ensures Total(MetricEntryWidths()) == METRIC_ENTRY_LEN
  {
    var w := MetricEntryWidths();
    assert Total(w) == 2 + Total(w[1..]);
    assert Total(w[1..]) == 1 + Total(w[1..][1..]);
  }

  function DecodeMetricEntry(b: bytes): (r: Result<MetricEntry, ReadError>)
    requires |b| == METRIC_ENTRY_LEN
  {
    assert Total(MetricEntryWidths()) == METRIC_ENTRY_LEN by { MetricEntryTotal(); }
    var p := Split(b, MetricEntryWidths());
    if p[2][0] != 0 || LEVal(p[7]) != 0 then Err(ReservedNotZero)
    else
      Ok(MetricEntry(LEVal(p[0]), p[1][0], LEVal(p[3]), TsVal(p[4]), TsVal(p[5]), LEVal(p[6]), LEVal(p[8]),
                     LEVal(p[9]), LEVal(p[10])))
  }

  function FooterWidths(): seq<nat> { [4, 4, 4] }

  function FooterParts(): seq<bytes> { [FOOTER_MAGIC, LE(VERSION, 4), LE(0, 4)] }

  lemma FooterTotal()
    ensures Total(FooterWidths()) == 12
  {
    var w := FooterWidths();
    assert Total(w) == 4 + Total(w[1..]);
    assert Total(w[1..]) == 4 + Total(w[1..][1..]);
  }

  /** The footer's checks; it holds no data. */
  function CheckFooter(env: Env, b: bytes): (r: Option<ReadError>)
    requires |b| == FOOTER_LEN
  {
    if b[..4] != FOOTER_MAGIC then Some(BadMagic)
    else if LEVal(Sub(b, 4, 4)) != VERSION then Some(BadVersion)
    else if LEVal(Sub(b, 8, 4)) != 0 then Some(ReservedNotZero)
    else
      assert Total(FooterWidths()) == 12 by { FooterTotal(); }
      if Unseal(env, b, FooterWidths()).None? then Some(BadChecksum) else None
  }

  // ---------------------------------------------------------------- records read back

  ghost predicate Fits16(n: nat) { n < TWO_16 }
  ghost predicate Fits32(n: nat) { n < TWO_32 }

  /** Where field i starts. */
  function Start(widths: seq<nat>, i: nat): (n: nat)
    requires i <= |widths|
  {
    if i == 0 then 0 else Start(widths, i - 1) + widths[i - 1]
  }

  lemma {:induction false} StartTail(widths: seq<nat>, i: nat)
    requires 1 <= i <= |widths|
    ensures Start(widths, i) == widths[0] + Start(widths[1..], i - 1)
  {
    if i > 1 {
      StartTail(widths, i - 1);
    }
  }

  lemma {:induction false} JoinedField(parts: seq<bytes>, widths: seq<nat>, i: nat)
    requires Sized(parts, widths) && i < |widths|
    ensures Start(widths, i) + widths[i] <= |Join(parts)| && Sub(Join(parts), Start(widths, i), widths[i]) == parts[i]
    decreases |parts|
  {
    if i > 0 {
      assert Sized(parts[1..], widths[1..]);
      JoinedField(parts[1..], widths[1..], i - 1);
      StartTail(widths, i);
      hide Start;
      var off := Start(widths[1..], i - 1);
      assert Join(parts) == parts[0] + Join(parts[1..]);
      assert Sub(Join(parts), widths[0] + off, widths[i]) == Sub(Join(parts[1..]), off, widths[i]);
    }
  }

  /** A field read before the record is unsealed. */
  lemma EarlyField(env: Env, parts: seq<bytes>, widths: seq<nat>, i: nat, off: nat)
    requires Sized(parts, widths) && i < |widths| && off == Start(widths, i)
    ensures off + widths[i] <= |Sealed(env, parts)| && Sub(Sealed(env, parts), off, widths[i]) == parts[i]
  {
    hide Join, Start, LE;
    JoinedField(parts, widths, i);
    assert Sub(Sealed(env, parts), off, widths[i]) == Sub(Join(parts), off, widths[i]);
  }

  lemma HeaderStarts()
    ensures Start(HeaderWidths(), 0) == 0 && Start(HeaderWidths(), 1) == 4 && Start(HeaderWidths(), 2) == 6
  {
  }

  lemma HeaderRoundTrip(env: Env, h: Header)
    requires forall x: bytes :: env.crc(x) < TWO_32
    requires Fits32(h.flags) && Fits32(h.timeCount) && Fits32(h.metricCount) && h.timeIndex < TWO_64 && h.metricIndex < TWO_64
    ensures var b := Sealed(env, HeaderParts(h));
            |b| == HEADER_LEN && DecodeHeader(env, b) == Ok(h)
  {
    hide Split, Join, Sealed, Unseal, LE, LETs, LEVal, TsVal, Total;
    Field(VERSION, 2);
    Field(HEADER_LEN, 2);
    Field(h.flags, 4);
    Field(h.timeCount, 4);
    Field(h.metricCount, 4);
    Field(h.timeIndex, 8);
    Field(h.metricIndex, 8);
    Field(0, 4);
    TsRoundTrip(h.minTs);
    TsRoundTrip(h.maxTs);
    HeaderTotal();
    var parts, widths := HeaderParts(h), HeaderWidths();
    assert Sized(parts, widths);
    SealRoundTrip(env, parts, widths);
    HeaderStarts();
    EarlyField(env, parts, widths, 0, 0);
    EarlyField(env, parts, widths, 1, 4);
    EarlyField(env, parts, widths, 2, 6);
    assert Sealed(env, parts)[..4] == Sub(Sealed(env, parts), 0, 4);
  }

  lemma TimeStarts()
    ensures Start(TimeWidths(), 0) == 0 && Start(TimeWidths(), 1) == 4 && Start(TimeWidths(), 11) == 40
  {
    var w := TimeWidths();
    assert Start(w, 3) == 8;
    assert Start(w, 5) == 11;
    assert Start(w, 7) == 20;
    assert Start(w, 9) == 32;
  }

  lemma TimeHeaderRoundTrip(env: Env, h: TimeHeader)
    requires forall x: bytes :: env.crc(x) < TWO_32
    requires Fits16(h.codecId) && Fits16(h.frameId) && Fits32(h.points) && Fits32(h.payloadLen) && Fits32(h.decodedLen)
    ensures var b := Sealed(env, TimeParts(h));
            |b| == FRAME_HEADER_LEN && DecodeTimeHeader(env, b) == Ok(h)
  {
    hide Split, Join, Sealed, Unseal, LE, LETs, LEVal, TsVal, Total, Start;
    Field(FRAME_HEADER_LEN, 2);
    Field(h.codecId, 2);
    Field(h.frameId, 2);
    Field(h.points, 4);
    Field(h.payloadLen, 4);
    Field(h.decodedLen, 4);
    Field(0, 4);
    TsRoundTrip(h.start);
    TsRoundTrip(h.end);
    TimeTotal();
    TimeStarts();
    var parts, widths := TimeParts(h), TimeWidths();
    assert Sized(parts, widths);
    SealRoundTrip(env, parts, widths);
    EarlyField(env, parts, widths, 0, 0);
    EarlyField(env, parts, widths, 1, 4);
    EarlyField(env, parts, widths, 11, 40);
    assert Sealed(env, parts)[..4] == Sub(Sealed(env, parts), 0, 4);
  }

  lemma MetricStarts()
    ensures Start(MetricWidths(), 0) == 0 && Start(MetricWidths(), 1) == 4 && Start(MetricWidths(), 9) == 30
  {
    var w := MetricWidths();
    assert Start(w, 3) == 8;
    assert Start(w, 5) == 11;
    assert Start(w, 7) == 20;
  }

  lemma MetricHeaderRoundTrip(env: Env, h: MetricHeader)
    requires forall x: bytes :: env.crc(x) < TWO_32
    requires Fits16(h.codecId) && Fits16(h.id) && Fits16(h.frameId)
    requires Fits32(h.offset) && Fits32(h.payloadLen) && Fits32(h.decodedLen)
    ensures var b := Sealed(env, MetricParts(h));
            |b| == FRAME_HEADER_LEN && DecodeMetricHeader(env, b) == Ok(h)
  {
    hide Split, Join, Sealed, Unseal, LE, LETs, LEVal, TsVal, Total, Start;
    Field(FRAME_HEADER_LEN, 2);
    Field(h.codecId, 2);
    Field(h.id, 2);
    Field(h.frameId, 2);
    Field(0, 2);
    Field(h.offset, 4);
    Field(h.payloadLen, 4);
    Field(h.decodedLen, 4);
    TsRoundTrip(h.start);
    TsRoundTrip(h.end);
    MetricTotal();
    MetricStarts();
    var parts, widths := MetricParts(h), MetricWidths();
    assert Sized(parts, widths);
    SealRoundTrip(env, parts, widths);
    EarlyField(env, parts, widths, 0, 0);
    EarlyField(env, parts, widths, 1, 4);
    EarlyField(env, parts, widths, 9, 30);
    assert Sealed(env, parts)[..4] == Sub(Sealed(env, parts), 0, 4);
  }

  lemma TimeEntryRoundTrip(e: TimeEntry)
    requires Fits16(e.frameId) && e.at < TWO_64 && Fits32(e.points) && Fits32(e.decodedLen) && Fits32(e.payloadLen)
    ensures var b := Join(TimeEntryParts(e));
            |b| == TIME_ENTRY_LEN && DecodeTimeEntry(b) == Ok(e)
  {
    hide Split, Join, LE, LETs, LEVal, TsVal, Total;
    Field(e.frameId, 2);
    Field(0, 2);
    Field(e.at, 8);
    Field(e.points, 4);
    Field(e.decodedLen, 4);
    Field(e.payloadLen, 4);
    TsRoundTrip(e.start);
    TsRoundTrip(e.end);
    TimeEntryTotal();
    SplitJoin(TimeEntryParts(e), TimeEntryWidths());
  }

  lemma MetricEntryRoundTrip(e: MetricEntry)
    requires Fits16(e.id) && e.at < TWO_64 && Fits16(e.frameId)
    requires Fits32(e.offset) && Fits32(e.decodedLen) && Fits32(e.payloadLen)
    ensures var b := Join(MetricEntryParts(e));
            |b| == METRIC_ENTRY_LEN && DecodeMetricEntry(b) == Ok(e)
  {
    hide Split, Join, LE, LETs, LEVal, TsVal, Total;
    Field(e.id, 2);
    Field(0, 2);
    Field(e.at, 8);
    Field(e.frameId, 2);
    Field(e.offset, 4);
    Field(e.decodedLen, 4);
    Field(e.payloadLen, 4);
    TsRoundTrip(e.start);
    TsRoundTrip(e.end);
    MetricEntryTotal();
    SplitJoin(MetricEntryParts(e), MetricEntryWidths());
  }

  lemma FooterStarts()
    ensures Start(FooterWidths(), 0) == 0 && Start(FooterWidths(), 1) == 4 && Start(FooterWidths(), 2) == 8
  {
  }

  lemma FooterRoundTrip(env: Env)
    requires forall x: bytes :: env.crc(x) < TWO_32
    ensures var b := Sealed(env, FooterParts());
            |b| == FOOTER_LEN && CheckFooter(env, b) == None
  {
    hide Split, Join, Sealed, Unseal, LE, LEVal, Total, Start;
    Field(VERSION, 4);
    Field(0, 4);
    FooterTotal();
    FooterStarts();
    var parts, widths := FooterParts(), FooterWidths();
    assert Sized(parts, widths);
    SealRoundTrip(env, parts, widths);
    EarlyField(env, parts, widths, 0, 0);
    EarlyField(env, parts, widths, 1, 4);
    EarlyField(env, parts, widths, 2, 8);
    assert Sealed(env, parts)[..4] == Sub(Sealed(env, parts), 0, 4);
  }
}
