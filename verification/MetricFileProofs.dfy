/** Reading back a written V2 metric file gives exactly the samples it was written from. */
module MetricFileProofs {
  import opened Prelude
  import opened Bytes
  import opened Frames
  import opened Codec
  import opened MetricPlan
  import opened MetricRecords
  import opened MetricFileV2

  ghost predicate EnvOk(env: Env, w: Writer) {
    && (forall x: bytes :: env.crc(x) < TWO_32)
    && env.lookup(w.codecId) == Some(w.codec) && Fits16(w.codecId) && w.codec.Lossless()
  }

  /** The frame is not empty and within the frame cap. */
  ghost predicate TimeOk(w: Writer, t: TimeFrame) {
    && t.times != [] && Fits16(t.id)
    && 8 * |t.times| <= MAX_FRAME_PAYLOAD && |w.codec.compress(TimePayload(t.times))| <= MAX_FRAME_PAYLOAD
  }

  ghost predicate MetricOk(w: Writer, m: MetricFrame) {
    && CheckInput(m.input).None? && m.input.times != [] && Fits16(m.input.id) && Fits16(m.frame) && Fits32(m.offset)
    && (forall v :: v in Raws(m.input) ==> v < TWO_32)
    && 4 * |m.input.times| <= MAX_FRAME_PAYLOAD && |w.codec.compress(ValuePayload(m.input))| <= MAX_FRAME_PAYLOAD
  }

  // ---------------------------------------------------------------- payloads

  lemma TimesRoundTrip(v: Vector)
    ensures |TimePayload(v)| == 8 * |v| && SplitTimes(TimePayload(v), |v|) == v
  {
    hide Concat, LETs, TsVal;
    FixedWidth(LETs, v, 8);
    forall i | 0 <= i < |v| ensures SplitTimes(TimePayload(v), |v|)[i] == v[i] {
      FixedAt(LETs, v, 8, i);
      TsRoundTrip(v[i]);
    }
  }

  lemma WordsRoundTrip(ws: seq<nat>)
    requires forall w :: w in ws ==> w < TWO_32
    ensures |Concat(WordBytes, ws)| == 4 * |ws| && SplitWords(Concat(WordBytes, ws), |ws|) == ws
  {
    hide Concat, LE, LEVal;
    FixedWidth(WordBytes, ws, 4);
    forall i | 0 <= i < |ws| ensures SplitWords(Concat(WordBytes, ws), |ws|)[i] == ws[i] {
      FixedAt(WordBytes, ws, 4, i);
      assert ws[i] in ws;
      Field(ws[i], 4);
    }
  }

  /** The header and the payload of a frame, from inside a file. */
  lemma FrameInside(env: Env, w: Writer, pre: bytes, header: bytes, p: bytes, post: bytes)
    requires EnvOk(env, w) && |header| == FRAME_HEADER_LEN
    ensures var z := w.codec.compress(p);
            var f := pre + FrameOf(env, header, z) + post;
            && ReadAt(f, |pre|, FRAME_HEADER_LEN) == Some(header)
            && ReadPayload(env, f, |pre|, w.codecId, |z|, |p|) == Ok(p)
            && |pre| + FRAME_HEADER_LEN + |z| + 4 <= |f|
  {
    hide LE, LEVal;
    var z := w.codec.compress(p);
    var c := LE(env.crc(z), 4);
    CutFrame(pre, header, z, c, post);
    Field(env.crc(z), 4);
  }

  lemma TimeFrameReads(env: Env, w: Writer, t: TimeFrame, pre: bytes, post: bytes)
    requires EnvOk(env, w) && TimeOk(w, t)
    ensures ReadTimeFrame(env, pre + TimeFrameBytes(env, w, t) + post, TimeEntryOf(w, t, |pre|)) == Ok(t.times)
  {
    hide Sealed, DecodeTimeHeader, TimeParts, ReadPayload, ReadAt, FrameOf, TimePayload, SplitTimes;
    TimesRoundTrip(t.times);
    var h := TimeHeaderOf(w, t);
    TimeHeaderRoundTrip(env, h);
    FrameInside(env, w, pre, Sealed(env, TimeParts(h)), TimePayload(t.times), post);
  }

  lemma MetricFrameReads(env: Env, w: Writer, m: MetricFrame, pre: bytes, post: bytes)
    requires EnvOk(env, w) && MetricOk(w, m)
    ensures ReadMetricFrame(env, pre + MetricFrameBytes(env, w, m) + post, MetricEntryOf(w, m, |pre|)) == Ok(Raws(m.input))
    ensures |Raws(m.input)| == |m.input.times|
  {
    hide Sealed, DecodeMetricHeader, MetricParts, ReadPayload, ReadAt, FrameOf, SplitWords, Concat;
    WordsRoundTrip(Raws(m.input));
    var h := MetricHeaderOf(w, m);
    MetricHeaderRoundTrip(env, h);
    FrameInside(env, w, pre, Sealed(env, MetricParts(h)), ValuePayload(m.input), post);
  }

  // ---------------------------------------------------------------- tables

  lemma {:induction false} TableReads<T>(
    f: bytes, pre: bytes, post: bytes, enc: T -> bytes, xs: seq<T>, k: nat, decode: bytes --> Result<T, ReadError>)
    requires f == pre + Concat(enc, xs) + post
    requires forall b: bytes :: |b| == k ==> decode.requires(b)
    requires forall x :: x in xs ==> |enc(x)| == k && decode(enc(x)) == Ok(x)
    ensures ReadTable(f, |pre|, k, |xs|, decode) == Ok(xs)
    decreases |xs|
  {
    if xs != [] {
      hide Concat;
      var x, rest := xs[0], xs[1..];
      FirstFrame(enc, xs, post);
      assert f == pre + enc(x) + (Concat(enc, rest) + post);
      SubOfConcat(pre, enc(x), Concat(enc, rest) + post);
      assert f == (pre + enc(x)) + Concat(enc, rest) + post;
      TableReads(f, pre + enc(x), post, enc, rest, k, decode);
      assert xs == [x] + rest;
    }
  }

  /** The i-th frame of a run, and what surrounds it. */
  lemma RunAround<T>(f: T -> bytes, ts: seq<T>, i: nat, pre: bytes, post: bytes)
    requires i < |ts|
    ensures pre + Concat(f, ts) + post
            == (pre + Concat(f, ts[..i])) + f(ts[i]) + (Concat(f, ts[i + 1..]) + post)
    ensures |pre + Concat(f, ts[..i])| == |pre| + |Concat(f, ts[..i])| <= |pre + Concat(f, ts) + post|
  {
    assert ts == (ts[..i] + [ts[i]]) + ts[i + 1..];
    ConcatAppend(f, ts[..i] + [ts[i]], ts[i + 1..]);
    ConcatSnoc(f, ts[..i], ts[i]);
    hide Concat;
  }

  /** Frames with distinct ids are found by id. */
  lemma {:induction false} ByIdFinds(es: seq<TimeEntry>, i: nat)
    requires i < |es| && forall j, k :: 0 <= j < k < |es| ==> es[j].frameId != es[k].frameId
    ensures es[i].frameId in TimeById(es) && TimeById(es)[es[i].frameId] == es[i]
  {
    if i < |es| - 1 {
      ByIdFinds(es[..|es| - 1], i);
    }
  }

  // ---------------------------------------------------------------- the whole file

  function HeadOf(env: Env, w: Writer, ts: seq<TimeFrame>, ms: seq<MetricFrame>): bytes {
    Sealed(env, HeaderParts(HeaderFor(w, ts, ms, LayoutOf(env, w, ts, ms))))
  }

  /** The file cut around each of its parts. */
  lemma FileShape(env: Env, w: Writer, ts: seq<TimeFrame>, ms: seq<MetricFrame>)
    ensures var l, h, f := LayoutOf(env, w, ts, ms), HeadOf(env, w, ts, ms), FileBytes(env, w, ts, ms);
            && f == h + l.times + (l.metrics + l.timeIndex + l.metricIndex + l.footer)
            && f == (h + l.times) + l.metrics + (l.timeIndex + l.metricIndex + l.footer)
            && f == (h + l.times + l.metrics) + l.timeIndex + (l.metricIndex + l.footer)
            && f == (h + l.times + l.metrics + l.timeIndex) + l.metricIndex + l.footer
            && f == (h + l.times + l.metrics + l.timeIndex + l.metricIndex) + l.footer
            && |f| == |h| + |l.times| + |l.metrics| + |l.timeIndex| + |l.metricIndex| + |l.footer|
  {
    hide LayoutOf, HeaderParts, Sealed;
  }

  /** Everything the writer is given fits its fields, and every metric frame is a slice of its time frame. */
  ghost predicate PlanOk(env: Env, w: Writer, ts: seq<TimeFrame>, ms: seq<MetricFrame>) {
    && EnvOk(env, w)
    && (forall i :: 0 <= i < |ts| ==> TimeOk(w, ts[i]))
    && (forall i, j :: 0 <= i < j < |ts| ==> ts[i].id != ts[j].id)
    && (forall i :: 0 <= i < |ms| ==> MetricOk(w, ms[i]) && Sliced(ts, ms[i]))
    && Fits32(|ts|) && Fits32(|ms|) && |FileBytes(env, w, ts, ms)| < TWO_64
  }

  ghost predicate Sliced(ts: seq<TimeFrame>, m: MetricFrame) {
    exists j :: 0 <= j < |ts| && ts[j].id == m.frame && SliceAt(ts[j].times, m.input.times, m.offset)
  }

  /** The samples of an input, in order; a well-formed input has a value for each time. */
  function PointsOf(p: Input): (ps: seq<Point>) {
    var n := Min(|p.times|, |Raws(p)|);
    seq(n, i requires 0 <= i < n => Point(p.id, p.valueType, p.times[i], Raws(p)[i]))
  }

  function AllPoints(ms: seq<MetricFrame>): (ps: seq<Point>) {
    if ms == [] then [] else AllPoints(ms[..|ms| - 1]) + PointsOf(ms[|ms| - 1].input)
  }

  lemma PlanGives(env: Env, w: Writer, ts: seq<TimeFrame>, ms: seq<MetricFrame>)
    requires PlanOk(env, w, ts, ms)
    ensures EnvOk(env, w)
    ensures forall i :: 0 <= i < |ts| ==> TimeOk(w, ts[i])
    ensures forall i :: 0 <= i < |ms| ==> MetricOk(w, ms[i])
  {
    hide EnvOk, TimeOk, MetricOk, Sliced, FileBytes;
  }

  lemma MetricFits(w: Writer, m: MetricFrame)
    requires MetricOk(w, m)
    ensures |Raws(m.input)| == |m.input.times|
  {
    hide ValuePayload;
  }

  lemma HeaderLength(env: Env, h: Header)
    requires forall x: bytes :: env.crc(x) < TWO_32
    ensures |Sealed(env, HeaderParts(h))| == HEADER_LEN
  {
    hide Join, Sealed, LE, LETs, Total;
    HeaderTotal();
    assert Sized(HeaderParts(h), HeaderWidths());
    SealRoundTrip(env, HeaderParts(h), HeaderWidths());
  }

  /** The sizes and offsets of the file's parts fit their fields. */
  lemma PartsFit(env: Env, w: Writer, ts: seq<TimeFrame>, ms: seq<MetricFrame>)
    requires PlanOk(env, w, ts, ms)
    ensures var l := LayoutOf(env, w, ts, ms);
            && |HeadOf(env, w, ts, ms)| == HEADER_LEN && |l.footer| == FOOTER_LEN
            && l.TimeIndexAt() <= l.MetricIndexAt() < TWO_64
            && HEADER_LEN + |l.times| + |l.metrics| < TWO_64
  {
    hide LayoutOf, HeaderFor, HeaderParts, Sealed, TimeOk, MetricOk, Sliced, FileBytes;
    var l := LayoutOf(env, w, ts, ms);
    HeaderLength(env, HeaderFor(w, ts, ms, l));
    FooterRoundTrip(env);
    FileShape(env, w, ts, ms);
    FooterOf(env, w, ts, ms);
  }

  lemma FooterOf(env: Env, w: Writer, ts: seq<TimeFrame>, ms: seq<MetricFrame>)
    ensures LayoutOf(env, w, ts, ms).footer == Sealed(env, FooterParts())
  {
  }

  lemma HeaderReads(env: Env, w: Writer, ts: seq<TimeFrame>, ms: seq<MetricFrame>)
    requires PlanOk(env, w, ts, ms)
    ensures ReadHeader(env, FileBytes(env, w, ts, ms)) == Ok(HeaderFor(w, ts, ms, LayoutOf(env, w, ts, ms)))
    ensures ReadFooter(env, FileBytes(env, w, ts, ms)) == None
  {
    var l, h, f := LayoutOf(env, w, ts, ms), HeadOf(env, w, ts, ms), FileBytes(env, w, ts, ms);
    PartsFit(env, w, ts, ms);
    FooterOf(env, w, ts, ms);
    FileShape(env, w, ts, ms);
    hide LayoutOf, HeaderParts, Sealed, TimeOk, MetricOk, Sliced, FileBytes, Bounds, DecodeHeader, CheckFooter, FooterParts;
    FooterRoundTrip(env);
    HeaderRoundTrip(env, HeaderFor(w, ts, ms, l));
    assert Sub(f, 0, HEADER_LEN) == h;
    assert f[|f| - FOOTER_LEN..] == l.footer;
  }

  lemma EntriesFit(env: Env, w: Writer, ts: seq<TimeFrame>, ms: seq<MetricFrame>)
    requires PlanOk(env, w, ts, ms)
    ensures forall e :: e in TimeEntries(env, w, ts) ==>
              |TimeEntryBytes(e)| == TIME_ENTRY_LEN && DecodeTimeEntry(TimeEntryBytes(e)) == Ok(e)
    ensures forall e :: e in MetricEntries(env, w, ms, HEADER_LEN + |LayoutOf(env, w, ts, ms).times|) ==>
              |MetricEntryBytes(e)| == METRIC_ENTRY_LEN && DecodeMetricEntry(MetricEntryBytes(e)) == Ok(e)
  {
    hide Concat, DecodeTimeEntry, DecodeMetricEntry, TimeEntryBytes, MetricEntryBytes, FileBytes;
    var l := LayoutOf(env, w, ts, ms);
    forall e | e in TimeEntries(env, w, ts)
      ensures |TimeEntryBytes(e)| == TIME_ENTRY_LEN && DecodeTimeEntry(TimeEntryBytes(e)) == Ok(e)
    {
      var i :| 0 <= i < |ts| && e == TimeEntries(env, w, ts)[i];
      TimeEntryFits(env, w, ts, ms, i);
    }
    var base := HEADER_LEN + |l.times|;
    forall e | e in MetricEntries(env, w, ms, base)
      ensures |MetricEntryBytes(e)| == METRIC_ENTRY_LEN && DecodeMetricEntry(MetricEntryBytes(e)) == Ok(e)
    {
      var i :| 0 <= i < |ms| && e == MetricEntries(env, w, ms, base)[i];
      MetricEntryFits(env, w, ts, ms, i);
    }
  }

  lemma TimeEntryFits(env: Env, w: Writer, ts: seq<TimeFrame>, ms: seq<MetricFrame>, i: nat)
    requires PlanOk(env, w, ts, ms) && i < |ts|
    ensures var e := TimeEntries(env, w, ts)[i];
            |TimeEntryBytes(e)| == TIME_ENTRY_LEN && DecodeTimeEntry(TimeEntryBytes(e)) == Ok(e)
  {
    hide PlanOk, EnvOk, MetricOk, Concat, DecodeTimeEntry, TimeEntryParts, FileBytes, LayoutOf, HeadOf, TimePayload, Join,
         TimeEntries;
    PlanGives(env, w, ts, ms);
    PartsFit(env, w, ts, ms);
    TimesIn(env, w, ts, ms);
    RunAround(TimeEncoder(env, w), ts, i, [], []);
    TimesRoundTrip(ts[i].times);
    TimeEntryAt(env, w, ts, i);
    TimeEntryRoundTrip(TimeEntries(env, w, ts)[i]);
  }

  /** The layout's frame runs. */
  lemma TimesIn(env: Env, w: Writer, ts: seq<TimeFrame>, ms: seq<MetricFrame>)
    ensures LayoutOf(env, w, ts, ms).times == Concat(TimeEncoder(env, w), ts)
    ensures LayoutOf(env, w, ts, ms).metrics == Concat(MetricEncoder(env, w), ms)
  {
  }

  lemma MetricEntryFits(env: Env, w: Writer, ts: seq<TimeFrame>, ms: seq<MetricFrame>, i: nat)
    requires PlanOk(env, w, ts, ms) && i < |ms|
    ensures var e := MetricEntries(env, w, ms, HEADER_LEN + |LayoutOf(env, w, ts, ms).times|)[i];
            |MetricEntryBytes(e)| == METRIC_ENTRY_LEN && DecodeMetricEntry(MetricEntryBytes(e)) == Ok(e)
  {
    hide PlanOk, EnvOk, TimeOk, Concat, DecodeMetricEntry, MetricEntryParts, FileBytes, LayoutOf, HeadOf, Join,
         MetricEntries, CheckInput, Raws;
    var base := HEADER_LEN + |LayoutOf(env, w, ts, ms).times|;
    PlanGives(env, w, ts, ms);
    MetricFits(w, ms[i]);
    PartsFit(env, w, ts, ms);
    TimesIn(env, w, ts, ms);
    RunAround(MetricEncoder(env, w), ms, i, [], []);
    WordsRoundTrip(Raws(ms[i].input));
    MetricEntryAt(env, w, ms, base, i);
    MetricEntryRoundTrip(MetricEntries(env, w, ms, base)[i]);
  }

  lemma TablesIn(env: Env, w: Writer, ts: seq<TimeFrame>, ms: seq<MetricFrame>)
    ensures var l := LayoutOf(env, w, ts, ms);
            && l.timeIndex == Concat(TimeEntryBytes, TimeEntries(env, w, ts))
            && l.metricIndex == Concat(MetricEntryBytes, MetricEntries(env, w, ms, HEADER_LEN + |l.times|))
  {
    hide Concat;
  }

  lemma TimeTableReads(env: Env, w: Writer, ts: seq<TimeFrame>, ms: seq<MetricFrame>)
    requires PlanOk(env, w, ts, ms)
    ensures var l := LayoutOf(env, w, ts, ms);
            ReadTable(FileBytes(env, w, ts, ms), l.TimeIndexAt(), TIME_ENTRY_LEN, |ts|, DecodeTimeEntry)
            == Ok(TimeEntries(env, w, ts))
  {
    hide PlanOk, DecodeTimeEntry, Concat, TimeEntryBytes, FileBytes, HeadOf, ReadTable, TimeEntries, MetricEntries, LayoutOf,
         MetricEntryBytes, DecodeMetricEntry;
    var l, h, f := LayoutOf(env, w, ts, ms), HeadOf(env, w, ts, ms), FileBytes(env, w, ts, ms);
    PartsFit(env, w, ts, ms);
    EntriesFit(env, w, ts, ms);
    FileShape(env, w, ts, ms);
    TablesIn(env, w, ts, ms);
    TableReads(f, h + l.times + l.metrics, l.metricIndex + l.footer, TimeEntryBytes, TimeEntries(env, w, ts),
               TIME_ENTRY_LEN, DecodeTimeEntry);
  }

  lemma MetricTableReads(env: Env, w: Writer, ts: seq<TimeFrame>, ms: seq<MetricFrame>)
    requires PlanOk(env, w, ts, ms)
    ensures var l := LayoutOf(env, w, ts, ms);
            ReadTable(FileBytes(env, w, ts, ms), l.MetricIndexAt(), METRIC_ENTRY_LEN, |ms|, DecodeMetricEntry)
            == Ok(MetricEntries(env, w, ms, HEADER_LEN + |l.times|))
  {
    hide PlanOk, DecodeMetricEntry, Concat, MetricEntryBytes, FileBytes, HeadOf, ReadTable, TimeEntries, MetricEntries,
         LayoutOf, TimeEntryBytes, DecodeTimeEntry;
    var l, h, f := LayoutOf(env, w, ts, ms), HeadOf(env, w, ts, ms), FileBytes(env, w, ts, ms);
    PartsFit(env, w, ts, ms);
    EntriesFit(env, w, ts, ms);
    FileShape(env, w, ts, ms);
    TablesIn(env, w, ts, ms);
    TableReads(f, h + l.times + l.metrics + l.timeIndex, l.footer, MetricEntryBytes,
               MetricEntries(env, w, ms, HEADER_LEN + |l.times|), METRIC_ENTRY_LEN, DecodeMetricEntry);
  }

  /** The index tables read back as the writer's entries. */
  lemma IndexesRead(env: Env, w: Writer, ts: seq<TimeFrame>, ms: seq<MetricFrame>)
    requires PlanOk(env, w, ts, ms)
    ensures var l := LayoutOf(env, w, ts, ms);
            ReadIndexes(env, FileBytes(env, w, ts, ms))
            == Ok(Indexes(TimeEntries(env, w, ts), MetricEntries(env, w, ms, HEADER_LEN + |l.times|)))
  {
    hide PlanOk, ReadHeader, ReadFooter, ReadTable, FileBytes, LayoutOf, TimeEntries, MetricEntries, Bounds;
    HeaderReads(env, w, ts, ms);
    TimeTableReads(env, w, ts, ms);
    MetricTableReads(env, w, ts, ms);
  }

  lemma TimeEntryAt(env: Env, w: Writer, ts: seq<TimeFrame>, i: nat)
    requires i < |ts|
    ensures TimeEntries(env, w, ts)[i] == TimeEntryOf(w, ts[i], HEADER_LEN + |Concat(TimeEncoder(env, w), ts[..i])|)
  {
    hide Concat, TimeEntryOf;
  }

  lemma MetricEntryAt(env: Env, w: Writer, ms: seq<MetricFrame>, base: nat, i: nat)
    requires i < |ms|
    ensures MetricEntries(env, w, ms, base)[i] == MetricEntryOf(w, ms[i], base + |Concat(MetricEncoder(env, w), ms[..i])|)
  {
    hide Concat, MetricEntryOf;
  }

  lemma TimeFrameInFile(env: Env, w: Writer, ts: seq<TimeFrame>, ms: seq<MetricFrame>, i: nat)
    requires PlanOk(env, w, ts, ms) && i < |ts|
    ensures ReadTimeFrame(env, FileBytes(env, w, ts, ms), TimeEntries(env, w, ts)[i]) == Ok(ts[i].times)
  {
    var l, h, f := LayoutOf(env, w, ts, ms), HeadOf(env, w, ts, ms), FileBytes(env, w, ts, ms);
    PartsFit(env, w, ts, ms);
    FileShape(env, w, ts, ms);
    TimesIn(env, w, ts, ms);
    assert TimeOk(w, ts[i]) && EnvOk(env, w);
    hide PlanOk, TimeOk, EnvOk, ReadTimeFrame, FileBytes, LayoutOf, HeadOf, Concat, TimeFrameBytes, TimeEntryOf, TimeEntries;
    TimeEntryAt(env, w, ts, i);
    var post := l.metrics + l.timeIndex + l.metricIndex + l.footer;
    RunAround(TimeEncoder(env, w), ts, i, h, post);
    TimeFrameReads(env, w, ts[i], h + Concat(TimeEncoder(env, w), ts[..i]),
                   Concat(TimeEncoder(env, w), ts[i + 1..]) + post);
  }

  lemma AroundMetricFrame(env: Env, w: Writer, ts: seq<TimeFrame>, ms: seq<MetricFrame>, i: nat) returns (pre: bytes, post: bytes)
    requires PlanOk(env, w, ts, ms) && i < |ms|
    ensures FileBytes(env, w, ts, ms) == pre + MetricFrameBytes(env, w, ms[i]) + post
    ensures |pre| == HEADER_LEN + |LayoutOf(env, w, ts, ms).times| + |Concat(MetricEncoder(env, w), ms[..i])|
  {
    hide PlanOk, FileBytes, LayoutOf, HeadOf, Concat, MetricFrameBytes;
    var l, h := LayoutOf(env, w, ts, ms), HeadOf(env, w, ts, ms);
    PartsFit(env, w, ts, ms);
    FileShape(env, w, ts, ms);
    TimesIn(env, w, ts, ms);
    var rest := l.timeIndex + l.metricIndex + l.footer;
    RunAround(MetricEncoder(env, w), ms, i, h + l.times, rest);
    pre := (h + l.times) + Concat(MetricEncoder(env, w), ms[..i]);
    post := Concat(MetricEncoder(env, w), ms[i + 1..]) + rest;
  }

  lemma MetricFrameInFile(env: Env, w: Writer, ts: seq<TimeFrame>, ms: seq<MetricFrame>, i: nat)
    requires PlanOk(env, w, ts, ms) && i < |ms|
    ensures var l := LayoutOf(env, w, ts, ms);
            ReadMetricFrame(env, FileBytes(env, w, ts, ms), MetricEntries(env, w, ms, HEADER_LEN + |l.times|)[i])
            == Ok(Raws(ms[i].input))
    ensures |Raws(ms[i].input)| == |ms[i].input.times|
  {
    hide PlanOk, MetricOk, EnvOk, ReadMetricFrame, FileBytes, LayoutOf, Concat, MetricFrameBytes, MetricEntryOf,
         MetricEntries, Raws, TimeOk;
    var base := HEADER_LEN + |LayoutOf(env, w, ts, ms).times|;
    PlanGives(env, w, ts, ms);
    MetricFits(w, ms[i]);
    var pre, post := AroundMetricFrame(env, w, ts, ms, i);
    MetricEntryAt(env, w, ms, base, i);
    MetricFrameReads(env, w, ms[i], pre, post);
  }

  lemma FrameFound(env: Env, w: Writer, ts: seq<TimeFrame>, j: nat)
    requires j < |ts| && forall i, k :: 0 <= i < k < |ts| ==> ts[i].id != ts[k].id
    ensures var es := TimeEntries(env, w, ts);
            ts[j].id in TimeById(es) && TimeById(es)[ts[j].id] == es[j]
  {
    hide Concat;
    ByIdFinds(TimeEntries(env, w, ts), j);
  }

  lemma EntryFields(env: Env, w: Writer, ms: seq<MetricFrame>, base: nat, i: nat)
    requires i < |ms|
    ensures var e, m := MetricEntries(env, w, ms, base)[i], ms[i];
            e.frameId == m.frame && e.offset == m.offset && e.id == m.input.id && e.valueType == m.input.valueType
  {
    hide Concat, ValuePayload;
  }

  lemma SlicedFrame(env: Env, w: Writer, ts: seq<TimeFrame>, ms: seq<MetricFrame>, i: nat) returns (j: nat)
    requires PlanOk(env, w, ts, ms) && i < |ms|
    ensures j < |ts| && ts[j].id == ms[i].frame && SliceAt(ts[j].times, ms[i].input.times, ms[i].offset)
    ensures forall a, b :: 0 <= a < b < |ts| ==> ts[a].id != ts[b].id
  {
    hide FileBytes, EnvOk, TimeOk, MetricOk;
    assert Sliced(ts, ms[i]);
    j :| 0 <= j < |ts| && ts[j].id == ms[i].frame && SliceAt(ts[j].times, ms[i].input.times, ms[i].offset);
  }

  lemma EntryWalks(env: Env, w: Writer, ts: seq<TimeFrame>, ms: seq<MetricFrame>, i: nat)
    requires PlanOk(env, w, ts, ms) && i < |ms|
    ensures var l := LayoutOf(env, w, ts, ms);
            WalkEntry(env, FileBytes(env, w, ts, ms), TimeById(TimeEntries(env, w, ts)),
                      MetricEntries(env, w, ms, HEADER_LEN + |l.times|)[i])
            == Ok(PointsOf(ms[i].input))
  {
    hide PlanOk, TimeById, TimeEntries, MetricEntries, ReadTimeFrame, ReadMetricFrame, FileBytes, LayoutOf, Raws;
    var m := ms[i];
    var base := HEADER_LEN + |LayoutOf(env, w, ts, ms).times|;
    var j := SlicedFrame(env, w, ts, ms, i);
    FrameFound(env, w, ts, j);
    TimeFrameInFile(env, w, ts, ms, j);
    MetricFrameInFile(env, w, ts, ms, i);
    EntryFields(env, w, ms, base, i);
    assert Join2(MetricEntries(env, w, ms, base)[i], m.input.times, Raws(m.input)) == PointsOf(m.input);
  }

  lemma {:induction false} EntriesWalk(env: Env, w: Writer, ts: seq<TimeFrame>, ms: seq<MetricFrame>, k: nat)
    requires PlanOk(env, w, ts, ms) && k <= |ms|
    ensures var es := MetricEntries(env, w, ms, HEADER_LEN + |LayoutOf(env, w, ts, ms).times|);
            WalkEntries(env, FileBytes(env, w, ts, ms), TimeById(TimeEntries(env, w, ts)), es[..k]) == Ok(AllPoints(ms[..k]))
  {
    hide PlanOk, TimeById, TimeEntries, MetricEntries, WalkEntry, FileBytes, LayoutOf, PointsOf;
    var es := MetricEntries(env, w, ms, HEADER_LEN + |LayoutOf(env, w, ts, ms).times|);
    if k > 0 {
      EntriesWalk(env, w, ts, ms, k - 1);
      EntryWalks(env, w, ts, ms, k - 1);
      assert es[..k][..k - 1] == es[..k - 1] && ms[..k][..k - 1] == ms[..k - 1];
    }
  }

  /**
   Reading back a written file, header, index offsets and frames included, yields exactly the samples of its
   metric frames, in order, for all inputs within the frame cap and the sizes of the file's fields.
   */
  lemma WalkOfFile(env: Env, w: Writer, ts: seq<TimeFrame>, ms: seq<MetricFrame>)
    requires PlanOk(env, w, ts, ms)
    ensures Walk(env, FileBytes(env, w, ts, ms)) == Ok(AllPoints(ms))
  {
    hide PlanOk, ReadIndexes, TimeById, WalkEntries, FileBytes, LayoutOf, AllPoints, TimeEntries, MetricEntries;
    IndexesRead(env, w, ts, ms);
    EntriesWalk(env, w, ts, ms, |ms|);
    var es := MetricEntries(env, w, ms, HEADER_LEN + |LayoutOf(env, w, ts, ms).times|);
    assert es[..|ms|] == es && ms[..|ms|] == ms;
  }

  // ---------------------------------------------------------------- planned files

  /** The time frames of a plan, with their ids. */
  function WithIds(frames: seq<Vector>): (ts: seq<TimeFrame>)
    ensures |ts| == |frames|
  {
    seq(|frames|, i requires 0 <= i < |frames| => TimeFrame(FrameId(i), frames[i]))
  }

  /** The inputs, by id, as the plan places them. */
  ghost predicate PlannedAs(pages: seq<Input>, frames: seq<Vector>, ms: seq<MetricFrame>) {
    && frames == PlannedFrames(pages) && |ms| == |pages|
    && forall i :: 0 <= i < |pages| ==>
         && CheckInput(ById(pages)[i]).None? && ms[i].input == ById(pages)[i] && ms[i].input.times != []
         && exists f: nat :: ms[i].frame == FrameId(f) && PlacedIn(frames, ms[i].input.times, MetricPlan.Place(f, ms[i].offset))
  }

  /** What the sizes of the file's fields ask of the inputs. */
  ghost predicate InputsFit(w: Writer, pages: seq<Input>, frames: seq<Vector>) {
    && 0 < |pages| < TWO_16
    && (forall p :: p in pages ==>
          && Fits16(p.id) && (forall v :: v in Raws(p) ==> v < TWO_32)
          && |w.codec.compress(ValuePayload(p))| <= MAX_FRAME_PAYLOAD)
    && (forall v :: v in frames ==> 8 * |v| <= MAX_FRAME_PAYLOAD && |w.codec.compress(TimePayload(v))| <= MAX_FRAME_PAYLOAD)
  }

  lemma PlannedFrameOk(w: Writer, pages: seq<Input>, frames: seq<Vector>, ms: seq<MetricFrame>, i: nat)
    requires PlannedAs(pages, frames, ms) && InputsFit(w, pages, frames) && i < |ms|
    ensures MetricOk(w, ms[i]) && Sliced(WithIds(frames), ms[i])
  {
    hide TimePayload, ValuePayload, PlannedFrames, IsSlice, CheckInput;
    SortedMembers(pages, ms[i].input);
    var f: nat :| ms[i].frame == FrameId(f) && PlacedIn(frames, ms[i].input.times, MetricPlan.Place(f, ms[i].offset));
    assert SliceAt(frames[f], ms[i].input.times, ms[i].offset);
    assert frames[f] in frames;
    assert WithIds(frames)[f].id == ms[i].frame;
  }

  lemma PlannedFileOk(env: Env, w: Writer, pages: seq<Input>, frames: seq<Vector>, ms: seq<MetricFrame>)
    requires EnvOk(env, w) && PlannedAs(pages, frames, ms) && InputsFit(w, pages, frames)
    requires |FileBytes(env, w, WithIds(frames), ms)| < TWO_64
    ensures PlanOk(env, w, WithIds(frames), ms)
  {
    hide EnvOk, FileBytes, MetricOk, Sliced, TimePayload, ValuePayload, PlannedFrames, PlacedIn, CheckInput;
    var ts := WithIds(frames);
    forall i | 0 <= i < |ms| ensures MetricOk(w, ms[i]) && Sliced(ts, ms[i]) {
      PlannedFrameOk(w, pages, frames, ms, i);
    }
    FrameCount(pages);
    forall i | 0 <= i < |ts| ensures TimeOk(w, ts[i]) && ts[i].id == i + 1 {
      IdsAreDistinct(pages, i);
      PlannedNotEmpty(pages, frames, ms, i);
      assert frames[i] in frames;
    }
  }

  lemma FrameCount(pages: seq<Input>)
    ensures |PlannedFrames(pages)| <= |pages|
  {
    BySizePermutes(ById(pages));
    FewFrames(VectorsIn(ById(pages), BySize(ById(pages))));
  }

  lemma PlannedNotEmpty(pages: seq<Input>, frames: seq<Vector>, ms: seq<MetricFrame>, i: nat)
    requires PlannedAs(pages, frames, ms) && i < |frames|
    ensures frames[i] != []
  {
    hide CheckInput, PlacedIn;
    var sorted := ById(pages);
    BySizePermutes(sorted);
    var vs := VectorsIn(sorted, BySize(sorted));
    FramesAreVectors(vs);
    assert frames[i] in vs;
    var m :| 0 <= m < |vs| && vs[m] == frames[i];
    assert ms[BySize(sorted)[m]].input == sorted[BySize(sorted)[m]];
  }

  /**
   A file written from planned inputs reads back as the inputs' samples in metric-id order: sharing time frames
   as slices of longer ones loses nothing.
   */
  lemma PlannedFileReadsBack(env: Env, w: Writer, pages: seq<Input>, frames: seq<Vector>, ms: seq<MetricFrame>)
    requires EnvOk(env, w) && PlannedAs(pages, frames, ms) && InputsFit(w, pages, frames)
    requires |FileBytes(env, w, WithIds(frames), ms)| < TWO_64
    ensures forall i :: 0 <= i < |ms| ==> |Raws(ms[i].input)| == |ms[i].input.times| && ms[i].input == ById(pages)[i]
    ensures Walk(env, FileBytes(env, w, WithIds(frames), ms)) == Ok(AllPoints(ms))
  {
    InputsInOrder(w, pages, frames, ms);
    hide EnvOk, PlannedAs, InputsFit, PlanOk, FileBytes, Walk, AllPoints, Raws, ById, WithIds;
    PlannedFileOk(env, w, pages, frames, ms);
    WalkOfFile(env, w, WithIds(frames), ms);
  }

  lemma InputsInOrder(w: Writer, pages: seq<Input>, frames: seq<Vector>, ms: seq<MetricFrame>)
    requires PlannedAs(pages, frames, ms)
    ensures |ms| == |pages|
    ensures forall i :: 0 <= i < |ms| ==> |Raws(ms[i].input)| == |ms[i].input.times| && ms[i].input == ById(pages)[i]
  {
    hide PlannedFrames, PlacedIn, ById;
  }
}
