/** Writing a V2 metric file frame by frame, and walking one entry by entry. */
module MetricFileWriter {
  import opened Prelude
  import opened Bytes
  import opened Frames
  import opened Codec
  import opened MetricPlan
  import opened MetricRecords
  import opened MetricFileV2
  import opened MetricFileProofs

  const MIN_KIND: byte := 1
  const MAX_KIND: byte := 4

  datatype WriteError = BadPartitionKind | NoPages | Unplanned(error: PlanError)

  // ---------------------------------------------------------------- frames

  method EncodeTimePayload(times: Vector) returns (payload: bytes)
    ensures payload == TimePayload(times)
  {
    payload := [];
    for i := 0 to |times|
      invariant payload == Concat(LETs, times[..i])
    {
      assert times[..i + 1] == times[..i] + [times[i]];
      ConcatSnoc(LETs, times[..i], times[i]);
      payload := payload + LETs(times[i]);
    }
    assert times[..|times|] == times;
  }

  method EncodeValuePayload(p: Input) returns (payload: bytes)
    ensures payload == ValuePayload(p)
  {
    var raws := if p.valueType == INT32_SAMPLE then p.ints else p.floats;
    payload := [];
    for i := 0 to |raws|
      invariant payload == Concat(WordBytes, raws[..i])
    {
      assert raws[..i + 1] == raws[..i] + [raws[i]];
      ConcatSnoc(WordBytes, raws[..i], raws[i]);
      payload := payload + LE(raws[i], 4);
    }
    assert raws[..|raws|] == raws;
  }

  method EncodeTimeFrame(env: Env, w: Writer, t: TimeFrame) returns (frame: bytes, hdr: TimeHeader)
    ensures frame == TimeFrameBytes(env, w, t) && hdr == TimeHeaderOf(w, t)
  {
    hide TimePayload, Sealed, TimeParts;
    var payload := EncodeTimePayload(t.times);
    var z := w.codec.compress(payload);
    hdr := TimeHeader(w.codecId, t.id, RAW_INT64, FirstTs(t.times), LastTs(t.times), |t.times|, |z|, |payload|);
    frame := Sealed(env, TimeParts(hdr)) + z + LE(env.crc(z), 4);
  }

  method EncodeMetricFrame(env: Env, w: Writer, m: MetricFrame) returns (frame: bytes, hdr: MetricHeader)
    ensures frame == MetricFrameBytes(env, w, m) && hdr == MetricHeaderOf(w, m)
  {
    hide ValuePayload, Sealed, MetricParts;
    var payload := EncodeValuePayload(m.input);
    var z := w.codec.compress(payload);
    hdr := MetricHeader(w.codecId, m.input.id, m.input.valueType, FirstTs(m.input.times), LastTs(m.input.times),
                        m.frame, m.offset, |z|, |payload|);
    frame := Sealed(env, MetricParts(hdr)) + z + LE(env.crc(z), 4);
  }

  lemma HeaderSize(env: Env, h: Header)
    ensures |Sealed(env, HeaderParts(h))| == HEADER_LEN
  {
    hide Join, Sealed, LE, LETs, Total;
    HeaderTotal();
    assert Sized(HeaderParts(h), HeaderWidths());
    SealedSize(env, HeaderParts(h), HeaderWidths());
  }

  lemma SealedSize(env: Env, parts: seq<bytes>, widths: seq<nat>)
    requires Sized(parts, widths)
    ensures |Sealed(env, parts)| == Total(widths) + 4
  {
    hide Join, Total, LE;
    SplitJoin(parts, widths);
  }

  lemma TimeEntrySize(e: TimeEntry)
    ensures |TimeEntryBytes(e)| == TIME_ENTRY_LEN
  {
    hide LE, LETs, Join;
    TimeEntryTotal();
    assert Sized(TimeEntryParts(e), TimeEntryWidths());
    SplitJoin(TimeEntryParts(e), TimeEntryWidths());
  }

  lemma MetricEntrySize(e: MetricEntry)
    ensures |MetricEntryBytes(e)| == METRIC_ENTRY_LEN
  {
    hide LE, LETs, Join;
    MetricEntryTotal();
    assert Sized(MetricEntryParts(e), MetricEntryWidths());
    SplitJoin(MetricEntryParts(e), MetricEntryWidths());
  }

  // ---------------------------------------------------------------- the file

  /** The temporary file while it is written, with the index entries and bounds gathered so far. */
  class FileWriter {
    const env: Env
    const w: Writer
    var f: bytes
    var curOffset: nat
    var timeInfos: seq<TimeEntry>
    var metricInfos: seq<MetricEntry>
    var fileMin: Timestamp
    var fileMax: Timestamp
    var firstTS: bool

    constructor (e: Env, writer: Writer)
      ensures env == e && w == writer && |f| == HEADER_LEN == curOffset
      ensures timeInfos == [] && metricInfos == [] && firstTS && fileMin == 0 == fileMax
    {
      HeaderSize(e, Header(1, writer.kind, 0, 0, 0, 0, 0, 0));
      env, w := e, writer;
      f := Sealed(e, HeaderParts(Header(1, writer.kind, 0, 0, 0, 0, 0, 0)));
      curOffset := HEADER_LEN;
      timeInfos, metricInfos := [], [];
      fileMin, fileMax, firstTS := 0, 0, true;
    }

    /** Widens the file's bounds by a frame's. */
    method Note(v: Vector)
      modifies this`fileMin, this`fileMax, this`firstTS
      ensures (fileMin, fileMax) == Widen((old(fileMin), old(fileMax)), old(firstTS), v) && !firstTS
    {
      var start, end := FirstTs(v), LastTs(v);
      if firstTS {
        fileMin, fileMax := start, end;
        firstTS := false;
      } else {
        if start < fileMin { fileMin := start; }
        if end > fileMax { fileMax := end; }
      }
    }

    method WriteTimeFrames(ts: seq<TimeFrame>)
      requires |f| == HEADER_LEN == curOffset && timeInfos == [] && firstTS && fileMin == 0 == fileMax
      modifies this
      ensures f == old(f) + Concat(TimeEncoder(env, w), ts) && curOffset == |f|
      ensures timeInfos == TimeEntries(env, w, ts) && metricInfos == old(metricInfos)
      ensures (fileMin, fileMax) == Bounds(ts, []) && firstTS == (ts == [])
    {
      hide TimeFrameBytes, TimeHeaderOf, Concat, Widen, MetricFileV2.Place;
      ghost var head := f;
      EmptyRun(TimeEncoder(env, w));
      for i := 0 to |ts|
        invariant f == head + Concat(TimeEncoder(env, w), ts[..i]) && curOffset == |f| && metricInfos == old(metricInfos)
        invariant timeInfos == TimeEntries(env, w, ts)[..i]
        invariant (fileMin, fileMax) == Bounds(ts[..i], []) && firstTS == (i == 0)
      {
        Grows(TimeEncoder(env, w), ts, i);
        TimeEntryHere(env, w, ts, i);
        TimeBoundsGrow(ts, i);
        var frame, hdr := EncodeTimeFrame(env, w, ts[i]);
        f := f + frame;
        timeInfos := timeInfos
          + [TimeEntry(hdr.frameId, curOffset, hdr.start, hdr.end, hdr.points, hdr.decodedLen, hdr.payloadLen)];
        curOffset := curOffset + |frame|;
        Note(ts[i].times);
      }
      assert ts[..|ts|] == ts;
    }

    method WriteMetricFrames(ts: seq<TimeFrame>, ms: seq<MetricFrame>)
      requires curOffset == |f| && metricInfos == []
      requires (fileMin, fileMax) == Bounds(ts, []) && firstTS == (ts == [])
      modifies this
      ensures f == old(f) + Concat(MetricEncoder(env, w), ms) && curOffset == |f|
      ensures metricInfos == MetricEntries(env, w, ms, |old(f)|) && timeInfos == old(timeInfos)
      ensures (fileMin, fileMax) == Bounds(ts, ms)
    {
      hide MetricFrameBytes, MetricHeaderOf, Concat, Widen, MetricFileV2.Place;
      ghost var head := f;
      EmptyRun(MetricEncoder(env, w));
      assert ms[..0] == [];
      for i := 0 to |ms|
        invariant f == head + Concat(MetricEncoder(env, w), ms[..i]) && curOffset == |f| && timeInfos == old(timeInfos)
        invariant metricInfos == MetricEntries(env, w, ms, |head|)[..i]
        invariant (fileMin, fileMax) == Bounds(ts, ms[..i]) && firstTS == (ts == [] && i == 0)
      {
        Grows(MetricEncoder(env, w), ms, i);
        MetricEntryHere(env, w, ms, |head|, i);
        MetricBoundsGrow(ts, ms, i);
        var frame, hdr := EncodeMetricFrame(env, w, ms[i]);
        f := f + frame;
        metricInfos := metricInfos
          + [MetricEntry(hdr.id, hdr.valueType, curOffset, hdr.start, hdr.end, hdr.frameId, hdr.offset,
                         hdr.decodedLen, hdr.payloadLen)];
        curOffset := curOffset + |frame|;
        Note(ms[i].input.times);
      }
      assert ms[..|ms|] == ms;
    }

    /** Appends both tables and the footer. */
    method WriteTables() returns (timeIndex: nat, metricIndex: nat)
      requires curOffset == |f|
      modifies this`f, this`curOffset
      ensures f == old(f) + Concat(TimeEntryBytes, timeInfos) + Concat(MetricEntryBytes, metricInfos) + Sealed(env, FooterParts())
      ensures timeIndex == |old(f)| && metricIndex == |old(f)| + |Concat(TimeEntryBytes, timeInfos)|
    {
      hide TimeEntryBytes, MetricEntryBytes, Concat, Sealed;
      ghost var head := f;
      timeIndex := curOffset;
      EmptyRun(TimeEntryBytes);
      for i := 0 to |timeInfos|
        invariant f == head + Concat(TimeEntryBytes, timeInfos[..i]) && curOffset == |f|
      {
        Grows(TimeEntryBytes, timeInfos, i);
        TimeEntrySize(timeInfos[i]);
        f := f + TimeEntryBytes(timeInfos[i]);
        curOffset := curOffset + TIME_ENTRY_LEN;
      }
      assert timeInfos[..|timeInfos|] == timeInfos;
      metricIndex := curOffset;
      ghost var tables := f;
      EmptyRun(MetricEntryBytes);
      for i := 0 to |metricInfos|
        invariant f == tables + Concat(MetricEntryBytes, metricInfos[..i]) && curOffset == |f|
      {
        Grows(MetricEntryBytes, metricInfos, i);
        MetricEntrySize(metricInfos[i]);
        f := f + MetricEntryBytes(metricInfos[i]);
        curOffset := curOffset + METRIC_ENTRY_LEN;
      }
      assert metricInfos[..|metricInfos|] == metricInfos;
      f := f + Sealed(env, FooterParts());
    }
  }

  /** The frames, the tables and the footer go out behind a provisional header, which is then written over. */
  method WriteFile(env: Env, w: Writer, ts: seq<TimeFrame>, ms: seq<MetricFrame>) returns (f: bytes)
    ensures f == FileBytes(env, w, ts, ms)
  {
    hide Concat, TimeEncoder, MetricEncoder, TimeEntries, MetricEntries, TimeEntryBytes, MetricEntryBytes, Bounds, Sealed, HeaderParts;
    var out := new FileWriter(env, w);
    ghost var head := out.f;
    out.WriteTimeFrames(ts);
    out.WriteMetricFrames(ts, ms);
    var timeIndex, metricIndex := out.WriteTables();
    var header := Header(1, w.kind, out.fileMin, out.fileMax, |out.timeInfos|, |out.metricInfos|, timeIndex, metricIndex);
    HeaderSize(env, header);
    ghost var l := LayoutOf(env, w, ts, ms);
    assert out.f == head + l.times + l.metrics + l.timeIndex + l.metricIndex + l.footer;
    BehindHead(head, l);
    f := Sealed(env, HeaderParts(header)) + out.f[HEADER_LEN..];
  }

  /** WriteMetricFileV2: plans the frames and writes them. What it writes reads back as the inputs, by id. */
  method WriteMetricFile(env: Env, w: Writer, pages: seq<Input>)
    returns (r: Result<bytes, WriteError>, ghost frames: seq<Vector>, ghost ms: seq<MetricFrame>)
    ensures r == Err(BadPartitionKind) <==> !(MIN_KIND <= w.kind <= MAX_KIND)
    ensures r == Err(NoPages) <==> MIN_KIND <= w.kind <= MAX_KIND && pages == []
    ensures r == Err(Unplanned(NoTimestamps)) <==>
              MIN_KIND <= w.kind <= MAX_KIND && exists p :: p in pages && p.times == []
    ensures r.Err? && r.error.Unplanned? && r.error.error != NoTimestamps ==>
              exists k :: 0 <= k < |pages| && CheckInput(ById(pages)[k]) == Some(r.error.error)
    ensures r.Ok? ==> PlannedAs(pages, frames, ms) && r.value == FileBytes(env, w, WithIds(frames), ms)
    ensures r.Ok? && EnvOk(env, w) && InputsFit(w, pages, frames) && |r.value| < TWO_64 ==>
              (forall i :: 0 <= i < |ms| ==> ms[i].input == ById(pages)[i] && |Raws(ms[i].input)| == |ms[i].input.times|)
              && Walk(env, r.value) == Ok(AllPoints(ms))
  {
    hide FileBytes, PlannedFrames, PlacedIn, CheckInput, EnvOk, InputsFit, Walk, AllPoints, WithIds, ById, PlannedAs, Raws;
    frames, ms := [], [];
    if w.kind < MIN_KIND || w.kind > MAX_KIND { return Err(BadPartitionKind), [], []; }
    if |pages| == 0 { return Err(NoPages), [], []; }
    var plan := PlanMetricFrames(pages);
    if plan.Err? { return Err(Unplanned(plan.error)), [], []; }
    var (timeFrames, metricFrames) := plan.value;
    frames, ms := timeFrames, metricFrames;
    PlanIsPlanned(pages, frames, ms);
    var f := WriteFile(env, w, WithIds(timeFrames), metricFrames);
    if EnvOk(env, w) && InputsFit(w, pages, frames) && |f| < TWO_64 {
      PlannedFileReadsBack(env, w, pages, frames, ms);
    }
    return Ok(f), frames, ms;
  }

  lemma PlanIsPlanned(pages: seq<Input>, frames: seq<Vector>, ms: seq<MetricFrame>)
    requires !exists p :: p in pages && p.times == []
    requires frames == PlannedFrames(pages) && |ms| == |pages|
    requires forall i :: 0 <= i < |pages| ==>
               && CheckInput(ById(pages)[i]).None? && ms[i].input == ById(pages)[i]
               && exists f: nat :: ms[i].frame == FrameId(f)
                                   && PlacedIn(frames, ms[i].input.times, MetricPlan.Place(f, ms[i].offset))
    ensures PlannedAs(pages, frames, ms)
  {
    hide PlannedFrames, PlacedIn, CheckInput, ById;
    forall i | 0 <= i < |pages| ensures ms[i].input.times != [] {
      assert ById(pages)[i] in ById(pages);
      SortedMembers(pages, ms[i].input);
    }
    forall i | 0 <= i < |pages|
      ensures exists f: nat :: ms[i].frame == FrameId(f) && PlacedIn(frames, ms[i].input.times, MetricPlan.Place(f, ms[i].offset))
    {
      assert CheckInput(ById(pages)[i]).None? && ms[i].input == ById(pages)[i];
      var f: nat :| ms[i].frame == FrameId(f) && PlacedIn(frames, ms[i].input.times, MetricPlan.Place(f, ms[i].offset));
    }
  }

  lemma BehindHead(head: bytes, l: Layout)
    requires |head| == HEADER_LEN
    ensures (head + l.times + l.metrics + l.timeIndex + l.metricIndex + l.footer)[HEADER_LEN..] == l.Body()
  {
  }

  lemma EmptyRun<T>(f: T -> bytes)
    ensures Concat(f, []) == []
  {
  }

  lemma Grows<T>(f: T -> bytes, ts: seq<T>, i: nat)
    requires i < |ts|
    ensures Concat(f, ts[..i + 1]) == Concat(f, ts[..i]) + f(ts[i])
  {
    assert ts[..i + 1] == ts[..i] + [ts[i]];
    ConcatSnoc(f, ts[..i], ts[i]);
  }

  lemma TimeEntryHere(env: Env, w: Writer, ts: seq<TimeFrame>, i: nat)
    requires i < |ts|
    ensures TimeEntries(env, w, ts)[i] == TimeEntryOf(w, ts[i], HEADER_LEN + |Concat(TimeEncoder(env, w), ts[..i])|)
  {
  }

  lemma MetricEntryHere(env: Env, w: Writer, ms: seq<MetricFrame>, base: nat, i: nat)
    requires i < |ms|
    ensures MetricEntries(env, w, ms, base)[i] == MetricEntryOf(w, ms[i], base + |Concat(MetricEncoder(env, w), ms[..i])|)
  {
  }

  lemma TimeBoundsGrow(ts: seq<TimeFrame>, i: nat)
    requires i < |ts|
    ensures Bounds(ts[..i + 1], []) == Widen(Bounds(ts[..i], []), i == 0, ts[i].times)
  {
    assert ts[..i + 1][..i] == ts[..i];
  }

  lemma MetricBoundsGrow(ts: seq<TimeFrame>, ms: seq<MetricFrame>, i: nat)
    requires i < |ms|
    ensures Bounds(ts, ms[..i + 1]) == Widen(Bounds(ts, ms[..i]), ts == [] && i == 0, ms[i].input.times)
  {
    assert ms[..i + 1][..i] == ms[..i];
  }

  // ---------------------------------------------------------------- the walk

  /** The tables, entry by entry. */
  method ReadIndexTable<T>(f: bytes, at: nat, k: nat, n: nat, decode: bytes --> Result<T, ReadError>)
    returns (r: Result<seq<T>, ReadError>)
    requires forall b: bytes :: |b| == k ==> decode.requires(b)
    ensures r == ReadTable(f, at, k, n, decode)
  {
    var entries: seq<T> := [];
    var pos: nat := at;
    AfterNothing(ReadTable(f, at, k, n, decode));
    for i := 0 to n
      invariant ReadTable(f, at, k, n, decode) == After(entries, ReadTable(f, pos, k, n - i, decode))
    {
      var b := ReadAt(f, pos, k);
      if b.None? { return Err(ShortRead); }
      var entry := decode(b.value);
      if entry.Err? { return Err(entry.error); }
      AfterMore(entries, entry.value, ReadTable(f, pos + k, k, n - i - 1, decode));
      entries := entries + [entry.value];
      pos := pos + k;
    }
    assert ReadTable(f, pos, k, 0, decode) == Ok([]) && entries + [] == entries;
    return Ok(entries);
  }

  lemma AfterNothing<T>(r: Result<seq<T>, ReadError>)
    ensures After([], r) == r
  {
    if r.Ok? {
      assert [] + r.value == r.value;
    }
  }

  lemma AfterMore<T>(xs: seq<T>, x: T, r: Result<seq<T>, ReadError>)
    ensures After(xs, match r case Err(e) => Err(e) case Ok(ys) => Ok([x] + ys)) == After(xs + [x], r)
  {
    if r.Ok? {
      assert xs + ([x] + r.value) == xs + [x] + r.value;
    }
  }

  function After<T>(xs: seq<T>, r: Result<seq<T>, ReadError>): Result<seq<T>, ReadError> {
    match r case Err(e) => Err(e) case Ok(ys) => Ok(xs + ys)
  }

  /** walkMetricFileSamplesV2: the metric entries one after another, each joined with its time frame. */
  method WalkMetricFileSamples(env: Env, f: bytes) returns (r: Result<seq<Point>, ReadError>)
    ensures r == Walk(env, f)
  {
    hide WalkEntry, DecodeTimeEntry, DecodeMetricEntry, ReadTable, DecodeHeader, CheckFooter;
    var header := ReadHeader(env, f);
    if header.Err? { return Err(header.error); }
    var bad := ReadFooter(env, f);
    if bad.Some? { return Err(bad.value); }
    var times := ReadIndexTable(f, header.value.timeIndex, TIME_ENTRY_LEN, header.value.timeCount, DecodeTimeEntry);
    if times.Err? { return Err(times.error); }
    var metrics := ReadIndexTable(f, header.value.metricIndex, METRIC_ENTRY_LEN, header.value.metricCount, DecodeMetricEntry);
    if metrics.Err? { return Err(metrics.error); }
    var byId := IndexById(times.value);
    var ps: seq<Point> := [];
    for i := 0 to |metrics.value|
      invariant WalkEntries(env, f, byId, metrics.value[..i]) == Ok(ps)
    {
      assert metrics.value[..i + 1][..i] == metrics.value[..i];
      var joined := WalkEntry(env, f, byId, metrics.value[i]);
      if joined.Err? {
        WalkStops(env, f, byId, metrics.value, i + 1);
        return Err(joined.error);
      }
      ps := ps + joined.value;
    }
    assert metrics.value[..|metrics.value|] == metrics.value;
    return Ok(ps);
  }

  method IndexById(es: seq<TimeEntry>) returns (m: map<nat, TimeEntry>)
    ensures m == TimeById(es)
  {
    m := map[];
    for i := 0 to |es|
      invariant m == TimeById(es[..i])
    {
      assert es[..i + 1][..i] == es[..i];
      m := m[es[i].frameId := es[i]];
    }
    assert es[..|es|] == es;
  }

  lemma {:induction false} WalkStops(env: Env, f: bytes, byId: map<nat, TimeEntry>, es: seq<MetricEntry>, i: nat)
    requires i <= |es| && WalkEntries(env, f, byId, es[..i]).Err?
    ensures WalkEntries(env, f, byId, es) == WalkEntries(env, f, byId, es[..i])
    decreases |es| - i
  {
    hide WalkEntry;
    if i == |es| {
      assert es[..i] == es;
    } else {
      assert es[..i + 1][..i] == es[..i];
      WalkStops(env, f, byId, es, i + 1);
    }
  }
}
