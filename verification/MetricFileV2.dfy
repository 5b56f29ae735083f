/**
 The V2 metric file: header, time frames, metric frames, two index tables, footer. The functions below are the
 bytes the writer produces and what the readers make of any bytes.
 */
module MetricFileV2 {
  import opened Prelude
  import opened Bytes
  import opened Frames
  import opened Codec
  import opened MetricPlan
  import opened MetricRecords

  /** What WriteMetricFileV2 writes with: the codec and its id, and the partition kind. */
  datatype Writer = Writer(codec: Codec, codecId: nat, kind: byte)

  // ---------------------------------------------------------------- what is written

  function WordBytes(w: nat): (b: bytes)
    ensures |b| == 4
  {
    LE(w, 4)
  }

  /** The raw values of an input, from the slice its type names. */
  function Raws(p: Input): seq<nat> {
    if p.valueType == INT32_SAMPLE then p.ints else p.floats
  }

  function TimePayload(v: Vector): bytes { Concat(LETs, v) }

  function ValuePayload(p: Input): bytes { Concat(WordBytes, Raws(p)) }

  function FirstTs(v: Vector): Timestamp {
    if v == [] then 0 else v[0]
  }

  function LastTs(v: Vector): Timestamp {
    if v == [] then 0 else v[|v| - 1]
  }

  /** A header, the compressed payload, and the payload's checksum. */
  function FrameOf(env: Env, header: bytes, z: bytes): (b: bytes)
    ensures |b| == |header| + |z| + 4
  {
    header + z + LE(env.crc(z), 4)
  }

  /** A time frame to be written, with its id. */
  datatype TimeFrame = TimeFrame(id: nat, times: Vector)

  function TimeHeaderOf(w: Writer, t: TimeFrame): TimeHeader {
    TimeHeader(w.codecId, t.id, RAW_INT64, FirstTs(t.times), LastTs(t.times), |t.times|,
               |w.codec.compress(TimePayload(t.times))|, |TimePayload(t.times)|)
  }

  function TimeFrameBytes(env: Env, w: Writer, t: TimeFrame): bytes {
    FrameOf(env, Sealed(env, TimeParts(TimeHeaderOf(w, t))), w.codec.compress(TimePayload(t.times)))
  }

  function MetricHeaderOf(w: Writer, m: MetricFrame): MetricHeader {
    MetricHeader(w.codecId, m.input.id, m.input.valueType, FirstTs(m.input.times), LastTs(m.input.times),
                 m.frame, m.offset, |w.codec.compress(ValuePayload(m.input))|, |ValuePayload(m.input)|)
  }

  function MetricFrameBytes(env: Env, w: Writer, m: MetricFrame): bytes {
    FrameOf(env, Sealed(env, MetricParts(MetricHeaderOf(w, m))), w.codec.compress(ValuePayload(m.input)))
  }

  function TimeEncoder(env: Env, w: Writer): TimeFrame -> bytes {
    (t: TimeFrame) => TimeFrameBytes(env, w, t)
  }

  function MetricEncoder(env: Env, w: Writer): MetricFrame -> bytes {
    (m: MetricFrame) => MetricFrameBytes(env, w, m)
  }

  function TimeEntryOf(w: Writer, t: TimeFrame, at: nat): TimeEntry {
    var h := TimeHeaderOf(w, t);
    TimeEntry(h.frameId, at, h.start, h.end, h.points, h.decodedLen, h.payloadLen)
  }

  function MetricEntryOf(w: Writer, m: MetricFrame, at: nat): MetricEntry {
    var h := MetricHeaderOf(w, m);
    MetricEntry(h.id, h.valueType, at, h.start, h.end, h.frameId, h.offset, h.decodedLen, h.payloadLen)
  }

  function TimeEntryBytes(e: TimeEntry): bytes { Join(TimeEntryParts(e)) }

  function MetricEntryBytes(e: MetricEntry): bytes { Join(MetricEntryParts(e)) }

  /** Where the i-th frame of a run that starts at `base` lies. */
  function Place<T>(f: T -> bytes, ts: seq<T>, base: nat, i: nat): nat
    requires i <= |ts|
  {
    base + |Concat(f, ts[..i])|
  }

  function TimeEntries(env: Env, w: Writer, ts: seq<TimeFrame>): (es: seq<TimeEntry>)
    ensures |es| == |ts|
  {
    seq(|ts|, i requires 0 <= i < |ts| => TimeEntryOf(w, ts[i], Place(TimeEncoder(env, w), ts, HEADER_LEN, i)))
  }

  function MetricEntries(env: Env, w: Writer, ms: seq<MetricFrame>, base: nat): (es: seq<MetricEntry>)
    ensures |es| == |ms|
  {
    seq(|ms|, i requires 0 <= i < |ms| => MetricEntryOf(w, ms[i], Place(MetricEncoder(env, w), ms, base, i)))
  }

  /** The parts of the file after its header. */
  datatype Layout = Layout(times: bytes, metrics: bytes, timeIndex: bytes, metricIndex: bytes, footer: bytes) {
    function TimeIndexAt(): nat { HEADER_LEN + |times| + |metrics| }
    function MetricIndexAt(): nat { TimeIndexAt() + |timeIndex| }
    function Body(): bytes { times + metrics + timeIndex + metricIndex + footer }
  }

  function LayoutOf(env: Env, w: Writer, ts: seq<TimeFrame>, ms: seq<MetricFrame>): Layout {
    var times := Concat(TimeEncoder(env, w), ts);
    Layout(times, Concat(MetricEncoder(env, w), ms),
           Concat(TimeEntryBytes, TimeEntries(env, w, ts)),
           Concat(MetricEntryBytes, MetricEntries(env, w, ms, HEADER_LEN + |times|)),
           Sealed(env, FooterParts()))
  }

  /** The smallest start and largest end over all frames, as the header tells them. */
  function Bounds(ts: seq<TimeFrame>, ms: seq<MetricFrame>): (b: (Timestamp, Timestamp))
    decreases |ts| + |ms|
  {
    if ms != [] then Widen(Bounds(ts, ms[..|ms| - 1]), ts == [] && |ms| == 1, ms[|ms| - 1].input.times)
    else if ts != [] then Widen(Bounds(ts[..|ts| - 1], []), |ts| == 1, ts[|ts| - 1].times)
    else (0, 0)
  }

  function Widen(b: (Timestamp, Timestamp), first: bool, v: Vector): (Timestamp, Timestamp) {
    if first then (FirstTs(v), LastTs(v))
    else (if FirstTs(v) < b.0 then FirstTs(v) else b.0, if LastTs(v) > b.1 then LastTs(v) else b.1)
  }

  function HeaderFor(w: Writer, ts: seq<TimeFrame>, ms: seq<MetricFrame>, l: Layout): Header {
    Header(1, w.kind, Bounds(ts, ms).0, Bounds(ts, ms).1, |ts|, |ms|, l.TimeIndexAt(), l.MetricIndexAt())
  }

  /** The file WriteMetricFileV2 leaves behind. */
  function FileBytes(env: Env, w: Writer, ts: seq<TimeFrame>, ms: seq<MetricFrame>): bytes {
    var l := LayoutOf(env, w, ts, ms);
    Sealed(env, HeaderParts(HeaderFor(w, ts, ms, l))) + l.Body()
  }

  // ---------------------------------------------------------------- reading

  function ReadAt(f: bytes, at: nat, n: nat): (r: Option<bytes>)
    ensures r.Some? ==> |r.value| == n
  {
    if at + n > |f| then None else Some(Sub(f, at, n))
  }

  /** A table of n entries of k bytes each. */
  function ReadTable<T>(f: bytes, at: nat, k: nat, n: nat, decode: bytes --> Result<T, ReadError>): (r: Result<seq<T>, ReadError>)
    requires forall b: bytes :: |b| == k ==> decode.requires(b)
    decreases n
  {
    if n == 0 then Ok([])
    else
      match ReadAt(f, at, k)
      case None => Err(ShortRead)
      case Some(b) =>
        match decode(b)
        case Err(e) => Err(e)
        case Ok(x) =>
          match ReadTable(f, at + k, k, n - 1, decode)
          case Err(e) => Err(e)
          case Ok(xs) => Ok([x] + xs)
  }

  function ReadHeader(env: Env, f: bytes): (r: Result<Header, ReadError>) {
    match ReadAt(f, 0, HEADER_LEN)
    case None => Err(ShortRead)
    case Some(b) => DecodeHeader(env, b)
  }

  function ReadFooter(env: Env, f: bytes): (r: Option<ReadError>) {
    if |f| < FOOTER_LEN then Some(ShortRead) else CheckFooter(env, f[|f| - FOOTER_LEN..])
  }

  /** The payload and trailer of a frame at `at`, checked and decompressed. */
  function ReadPayload(env: Env, f: bytes, at: nat, codecId: nat, payloadLen: nat, decodedLen: nat)
    : (r: Result<bytes, ReadError>)
    ensures r.Ok? ==> |r.value| == decodedLen
  {
    match env.lookup(codecId)
    case None => Err(UnknownCodec)
    case Some(codec) =>
      match ReadAt(f, at + FRAME_HEADER_LEN, payloadLen)
      case None => Err(ShortRead)
      case Some(z) =>
        match ReadAt(f, at + FRAME_HEADER_LEN + payloadLen, 4)
        case None => Err(ShortRead)
        case Some(tail) =>
          if LEVal(tail) != env.crc(z) then Err(BadChecksum)
          else
            match codec.decompress(z)
            case None => Err(BadCompression)
            case Some(p) => if |p| != decodedLen then Err(BadDecodedLen) else Ok(p)
  }

  function SplitTimes(p: bytes, n: nat): (v: Vector)
    requires |p| == 8 * n
    ensures |v| == n
  {
    seq(n, i requires 0 <= i < n => TsVal(Sub(p, 8 * i, 8)))
  }

  function SplitWords(p: bytes, n: nat): (v: seq<nat>)
    requires |p| == 4 * n
    ensures |v| == n
  {
    seq(n, i requires 0 <= i < n => LEVal(Sub(p, 4 * i, 4)))
  }

  /** What must agree between a time frame's header and its index entry, and the size caps. */
  function CheckTimeHeader(h: TimeHeader, e: TimeEntry): Option<ReadError> {
    if h.frameId != e.frameId || h.points != e.points || h.payloadLen != e.payloadLen || h.decodedLen != e.decodedLen
    then Some(IndexMismatch)
    else if h.start != e.start || h.end != e.end then Some(BoundsMismatch)
    else if h.payloadLen > MAX_FRAME_PAYLOAD || h.decodedLen > MAX_FRAME_PAYLOAD then Some(OverCap)
    else None
  }

  /** The times in a decompressed payload, against the header. */
  function DecodedTimes(h: TimeHeader, p: bytes): (r: Result<Vector, ReadError>) {
    if h.encoding != RAW_INT64 then Err(UnsupportedEncoding)
    else if |p| != 8 * h.points then Err(BadShape)
    else
      var times := SplitTimes(p, h.points);
      if times != [] && (FirstTs(times) != h.start || LastTs(times) != h.end) then Err(BoundsMismatch) else Ok(times)
  }

  /** readOneMetricTimeFrameV2. */
  function ReadTimeFrame(env: Env, f: bytes, e: TimeEntry): (r: Result<Vector, ReadError>) {
    match ReadAt(f, e.at, FRAME_HEADER_LEN)
    case None => Err(ShortRead)
    case Some(b) =>
      match DecodeTimeHeader(env, b)
      case Err(x) => Err(x)
      case Ok(h) =>
        if CheckTimeHeader(h, e).Some? then Err(CheckTimeHeader(h, e).value)
        else
          match ReadPayload(env, f, e.at, h.codecId, h.payloadLen, h.decodedLen)
          case Err(x) => Err(x)
          case Ok(p) => DecodedTimes(h, p)
  }

  function CheckMetricHeader(h: MetricHeader, e: MetricEntry): Option<ReadError> {
    if h.id != e.id || h.valueType != e.valueType || h.frameId != e.frameId || h.offset != e.offset
       || h.payloadLen != e.payloadLen || h.decodedLen != e.decodedLen
    then Some(IndexMismatch)
    else if h.start != e.start || h.end != e.end then Some(BoundsMismatch)
    else None
  }

  function ValuesOf(h: MetricHeader, p: bytes): (r: Result<seq<nat>, ReadError>)
    requires |p| == h.decodedLen
    ensures r.Ok? ==> 4 * |r.value| == h.decodedLen
  {
    if h.valueType != INT32_SAMPLE && h.valueType != FLOAT32_SAMPLE then Err(BadValueType)
    else if h.decodedLen % 4 != 0 then Err(BadDecodedLen)
    else Ok(SplitWords(p, h.decodedLen / 4))
  }

  /** readOneMetricMetricFrameV2: the raw values of a metric frame. */
  function ReadMetricFrame(env: Env, f: bytes, e: MetricEntry): (r: Result<seq<nat>, ReadError>) {
    match ReadAt(f, e.at, FRAME_HEADER_LEN)
    case None => Err(ShortRead)
    case Some(b) =>
      match DecodeMetricHeader(env, b)
      case Err(x) => Err(x)
      case Ok(h) =>
        if CheckMetricHeader(h, e).Some? then Err(CheckMetricHeader(h, e).value)
        else if env.lookup(h.codecId).None? then Err(UnknownCodec)
        else if h.payloadLen > MAX_FRAME_PAYLOAD || h.decodedLen > MAX_FRAME_PAYLOAD then Err(OverCap)
        else if e.at + FRAME_HEADER_LEN + h.payloadLen + 4 > |f| then Err(ShortRead)
        else
          match ReadPayload(env, f, e.at, h.codecId, h.payloadLen, h.decodedLen)
          case Err(x) => Err(x)
          case Ok(p) => ValuesOf(h, p)
  }

  /** The index entries by time frame id; a later entry replaces an earlier one. */
  function TimeById(es: seq<TimeEntry>): (m: map<nat, TimeEntry>) {
    if es == [] then map[] else TimeById(es[..|es| - 1])[es[|es| - 1].frameId := es[|es| - 1]]
  }

  /** One sample of the file. */
  datatype Point = Point(id: nat, valueType: byte, ts: Timestamp, raw: nat)

  function Join2(e: MetricEntry, times: Vector, raws: seq<nat>): (ps: seq<Point>)
    requires |times| == |raws|
    ensures |ps| == |times|
  {
    seq(|times|, i requires 0 <= i < |times| => Point(e.id, e.valueType, times[i], raws[i]))
  }

  /** The samples of one metric frame, joined with the slice of its time frame. */
  function WalkEntry(env: Env, f: bytes, byId: map<nat, TimeEntry>, e: MetricEntry): (r: Result<seq<Point>, ReadError>) {
    if e.frameId !in byId then Err(MissingTimeFrame)
    else
      match ReadTimeFrame(env, f, byId[e.frameId])
      case Err(x) => Err(x)
      case Ok(times) =>
        match ReadMetricFrame(env, f, e)
        case Err(x) => Err(x)
        case Ok(raws) =>
          if e.offset + |raws| > |times| then Err(SliceOutOfBounds)
          else Ok(Join2(e, times[e.offset..e.offset + |raws|], raws))
  }

  function WalkEntries(env: Env, f: bytes, byId: map<nat, TimeEntry>, es: seq<MetricEntry>): (r: Result<seq<Point>, ReadError>) {
    if es == [] then Ok([])
    else
      match WalkEntries(env, f, byId, es[..|es| - 1])
      case Err(x) => Err(x)
      case Ok(ps) =>
        match WalkEntry(env, f, byId, es[|es| - 1])
        case Err(x) => Err(x)
        case Ok(qs) => Ok(ps + qs)
  }

  datatype Indexes = Indexes(times: seq<TimeEntry>, metrics: seq<MetricEntry>)

  /** Both index tables. */
  function ReadTables(f: bytes, h: Header): (r: Result<Indexes, ReadError>) {
    match ReadTable(f, h.timeIndex, TIME_ENTRY_LEN, h.timeCount, DecodeTimeEntry)
    case Err(x) => Err(x)
    case Ok(ts) =>
      match ReadTable(f, h.metricIndex, METRIC_ENTRY_LEN, h.metricCount, DecodeMetricEntry)
      case Err(x) => Err(x)
      case Ok(ms) => Ok(Indexes(ts, ms))
  }

  /** The header, the footer's checks, and the tables, as the walk and the comparison read them. */
  function ReadIndexes(env: Env, f: bytes): (r: Result<Indexes, ReadError>) {
    match ReadHeader(env, f)
    case Err(x) => Err(x)
    case Ok(h) =>
      match ReadFooter(env, f)
      case Some(x) => Err(x)
      case None => ReadTables(f, h)
  }

  /** The header as queries read it: the size and the footer come first. */
  function OpenForQuery(env: Env, f: bytes): (r: Result<Header, ReadError>) {
    if |f| < HEADER_LEN + FOOTER_LEN then Err(ShortRead)
    else
      match ReadFooter(env, f)
      case Some(x) => Err(x)
      case None => ReadHeader(env, f)
  }

  /** walkMetricFileSamplesV2. */
  function Walk(env: Env, f: bytes): (r: Result<seq<Point>, ReadError>) {
    match ReadIndexes(env, f)
    case Err(x) => Err(x)
    case Ok(ix) => WalkEntries(env, f, TimeById(ix.times), ix.metrics)
  }
}
