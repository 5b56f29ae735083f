/** The metric page in place, and the loops that rewrite and salvage a data file. */
module DataPageFile {
  import opened Prelude
  import opened Bytes
  import opened Frames
  import opened Codec
  import opened Samples
  import opened DataPages
  import opened Recompact
  import opened Recover

  datatype AddError = OutOfOrderTimestamp

  function Zip(ids: seq<nat>, times: seq<Timestamp>, values: seq<nat>): (page: Page)
    requires |times| == |ids| == |values|
    ensures |page| == |ids|
  {
    seq(|ids|, i requires 0 <= i < |ids| => Sample(ids[i], times[i], values[i]))
  }

  lemma ZipSnoc(ids: seq<nat>, times: seq<Timestamp>, values: seq<nat>, s: Sample)
    requires |times| == |ids| == |values|
    ensures Zip(ids + [s.id], times + [s.ts], values + [s.raw]) == Zip(ids, times, values) + [s]
  {
  }

  class DataPage {
    var start: Timestamp
    var end: Timestamp
    var metrics: seq<nat>
    var times: seq<Timestamp>
    var values: seq<nat>
    const limits: Limits

    predicate Aligned()
      reads this
    {
      |times| == |metrics| == |values|
    }

    function Samples(): (page: Page)
      requires Aligned()
      reads this
      ensures |page| == |metrics|
    {
      Zip(metrics, times, values)
    }

    /** In time order, and the end is that of the samples. */
    ghost predicate Valid()
      reads this
    {
      Aligned() && InOrder(Samples()) && (Samples() != [] ==> end == EndOf(Samples()))
    }

    /** The first sample, if any, is at the start the page was made with. */
    ghost predicate Started()
      requires Aligned()
      reads this
    {
      Samples() != [] ==> start == Samples()[0].ts
    }

    constructor (firstTS: Timestamp, lim: Limits)
      ensures Valid() && Started() && Samples() == [] && limits == lim && start == firstTS
    {
      start, end := firstTS, firstTS;
      metrics, times, values := [], [], [];
      limits := lim;
    }

    /** Appends a sample, or refuses one that would go back in time. */
    method AddSample(s: Sample) returns (err: Option<AddError>)
      requires Valid()
      modifies this
      ensures Valid() && start == old(start)
      ensures old(Started()) && (old(Samples()) == [] ==> s.ts == start) ==> Started()
      ensures err.Some? <==> old(Samples()) != [] && s.ts < EndOf(old(Samples()))
      ensures Samples() == old(Samples()) + if err.None? then [s] else []
    {
      if |times| > 0 && s.ts < times[|times| - 1] { return Some(OutOfOrderTimestamp); }
      ZipSnoc(metrics, times, values, s);
      metrics := metrics + [s.id];
      times := times + [s.ts];
      values := values + [s.raw];
      end := s.ts;
      return None;
    }

    /** Whether the page is closed for size or, by the clock's answer, for age. */
    method IsFull(aged: bool) returns (full: bool)
      requires Aligned()
      ensures full == (|Samples()| >= Capacity(limits) || aged)
    {
      ClosesAtCapacity(limits, |times|);
      if |times| >= limits.Records() { return true; }
      if |metrics| * 2 + |times| * 8 + |values| * 4 >= limits.Bytes() { return true; }
      return aged;
    }

    method EncodeMetrics() returns (column: bytes)
      requires Aligned()
      ensures column == Concat(IdBytes, Samples())
    {
      column := [];
      ghost var page := Samples();
      for i := 0 to |metrics|
        invariant column == Concat(IdBytes, page[..i])
      {
        assert page[..i + 1] == page[..i] + [page[i]];
        ConcatSnoc(IdBytes, page[..i], page[i]);
        column := column + LE(metrics[i], 2);
      }
      assert page[..|page|] == page;
    }

    method EncodeTimes() returns (column: bytes)
      requires Aligned()
      ensures column == Concat(TimeBytes, Samples())
    {
      column := [];
      ghost var page := Samples();
      for i := 0 to |times|
        invariant column == Concat(TimeBytes, page[..i])
      {
        assert page[..i + 1] == page[..i] + [page[i]];
        ConcatSnoc(TimeBytes, page[..i], page[i]);
        column := column + LETs(times[i]);
      }
      assert page[..|page|] == page;
    }

    method EncodeValues() returns (column: bytes)
      requires Aligned()
      ensures column == Concat(RawBytes, Samples())
    {
      column := [];
      ghost var page := Samples();
      for i := 0 to |values|
        invariant column == Concat(RawBytes, page[..i])
      {
        assert page[..i + 1] == page[..i] + [page[i]];
        ConcatSnoc(RawBytes, page[..i], page[i]);
        column := column + LE(values[i], 4);
      }
      assert page[..|page|] == page;
    }

    method EncodePayload() returns (payload: bytes)
      requires Aligned()
      ensures payload == Payload(Samples())
    {
      hide Concat;
      payload := EncodeMetrics();
      var column := EncodeTimes();
      payload := payload + column;
      column := EncodeValues();
      payload := payload + column;
    }

    /** Serialises a page that holds samples as one frame, whose header has the start the page was made with. */
    method EncodeInto(codec: Codec) returns (frame: bytes)
      requires Valid() && Samples() != []
      ensures frame == FrameFrom(codec, start, Samples())
      ensures Started() ==> frame == Frame(codec, Samples())
    {
      var n := |times|;
      var header := LETs(start) + LETs(end) + LE(n % TWO_16, 2);
      var payload := EncodePayload();
      var compressed := codec.compress(payload);
      frame := header + PutUvarint(|compressed|);
      frame := frame + compressed;
      frame := frame + LE(codec.crc(compressed), 4);
    }
  }

  /** The frame of a page made with a given start. */
  function FrameFrom(codec: Codec, start: Timestamp, page: Page): (b: bytes)
    requires page != []
  {
    var z := Compressed(codec, page);
    HeaderBytes(start, EndOf(page), |page|) + PutUvarint(|z|) + z + LE(codec.crc(z), 4)
  }

  /** DecodeFrom on the page at position pos: the page and the bytes it takes. */
  method DecodeFrom(codec: Codec, blob: bytes, pos: nat) returns (r: Result<(Stored, nat), FrameError>)
    requires pos <= |blob|
    ensures r == DecodeFrame(codec, blob[pos..])
  {
    hide LEVal, TsVal, Uvarint;
    var b := blob[pos..];
    if |b| < HEADER_SIZE { return Err(ShortFrame); }
    var start, end, count := TsVal(Sub(b, 0, 8)), TsVal(Sub(b, 8, 8)), LEVal(Sub(b, 16, 2));
    match Uvarint(b[HEADER_SIZE..]) {
      case None => return Err(BadLength);
      case Some((len, n)) =>
        var at := HEADER_SIZE + n;
        if len > MAX_FRAME_PAYLOAD { return Err(OverCap); }
        if at + len + 4 > |b| { return Err(ShortFrame); }
        var compressed := Sub(b, at, len);
        var crc := LEVal(Sub(b, at + len, 4));
        if codec.crc(compressed) != crc { return Err(CrcMismatch); }
        var payload := codec.decompress(compressed);
        if payload.None? { return Err(BadCompression); }
        if |payload.value| != 14 * count { return Err(PayloadMismatch); }
        var samples := SplitColumns(payload.value, count);
        return Ok((Stored(start, end, samples), at + len + 4));
    }
  }

  method SplitColumns(payload: bytes, n: nat) returns (page: Page)
    requires |payload| == 14 * n
    ensures page == Columns(payload, n)
  {
    hide LEVal, TsVal;
    var metrics: seq<nat>, times: seq<Timestamp> := [], [];
    var pos := 0;
    for i := 0 to n
      invariant pos == 2 * i && |metrics| == i
      invariant forall k :: 0 <= k < i ==> metrics[k] == SampleAt(payload, n, k).id
    {
      metrics := metrics + [LEVal(Sub(payload, pos, 2))];
      pos := pos + 2;
    }
    for i := 0 to n
      invariant pos == 2 * n + 8 * i && |times| == i
      invariant forall k :: 0 <= k < i ==> times[k] == SampleAt(payload, n, k).ts
    {
      times := times + [TsVal(Sub(payload, pos, 8))];
      pos := pos + 8;
    }
    page := [];
    for i := 0 to n
      invariant pos == 10 * n + 4 * i && |page| == i
      invariant forall k :: 0 <= k < i ==> page[k] == SampleAt(payload, n, k)
    {
      page := page + [Sample(metrics[i], times[i], LEVal(Sub(payload, pos, 4)))];
      pos := pos + 4;
    }
  }

  /** validateRecompactSourcePage. */
  method Validate(p: Stored) returns (err: Option<FrameError>)
    ensures err.None? <==> Consistent(p)
    ensures p.samples != [] ==>
              err == if p.start != p.samples[0].ts then Some(StartMismatch)
                     else if p.end != EndOf(p.samples) then Some(EndMismatch)
                     else if Consistent(p) then None else Some(Rollback)
  {
    if |p.samples| == 0 { return None; }
    if p.start != p.samples[0].ts { return Some(StartMismatch); }
    if p.end != p.samples[|p.samples| - 1].ts { return Some(EndMismatch); }
    for i := 1 to |p.samples|
      invariant forall k :: 1 <= k < i ==> p.samples[k - 1].ts <= p.samples[k].ts
    {
      if p.samples[i].ts < p.samples[i - 1].ts { return Some(Rollback); }
    }
    return None;
  }

  // ---------------------------------------------------------------- rewriting

  /** How one more sample extends the packing, by what is being filled. */
  lemma ExtendCases(closed: seq<Page>, cur: Page, s: Sample, cap: nat)
    requires |cur| < cap
    requires cur == [] && closed != [] ==> |closed[|closed| - 1]| >= cap
    ensures cur == [] ==> Extend(closed, s, cap) == closed + [[s]]
    ensures cur != [] && s.ts < EndOf(cur) ==> Extend(closed + [cur], s, cap) == closed + [cur] + [[s]]
    ensures cur != [] && s.ts >= EndOf(cur) ==> Extend(closed + [cur], s, cap) == closed + [cur + [s]]
  {
    assert (closed + [cur])[..|closed|] == closed;
  }

  /** The state recompactDataFileBlob's closures share: the output so far and the page being filled. */
  class Recompactor {
    const codec: Codec
    const limits: Limits
    var output: bytes
    var frames: nat
    var page: DataPage?

    ghost var seen: Page          // the samples appended so far
    ghost var closed: seq<Page>   // the pages in the output

    ghost function Filling(): seq<Page>
      reads this, page
      requires page != null ==> page.Aligned()
    {
      if page == null then [] else [page.Samples()]
    }

    ghost predicate Valid()
      reads this, page
    {
      && output == FileBytes(codec, closed) && frames == |closed|
      && (page != null ==>
            page.Valid() && page.Started() && page.limits == limits && 0 < |page.Samples()| < Capacity(limits))
      && Repack(seen, Capacity(limits)) == closed + Filling()
      && (page == null && closed != [] ==> |closed[|closed| - 1]| >= Capacity(limits))
    }

    constructor (c: Codec, lim: Limits)
      ensures Valid() && seen == [] && page == null && codec == c && limits == lim
    {
      codec, limits := c, lim;
      output, frames, page := [], 0, null;
      seen, closed := [], [];
    }

    /** Writes the page being filled, if there is one. */
    method FlushPage()
      requires output == FileBytes(codec, closed) && frames == |closed|
      requires page != null ==> page.Valid() && page.Started() && page.Samples() != []
      modifies this`output, this`frames, this`page, this`closed
      ensures output == FileBytes(codec, closed) && frames == |closed| && page == null
      ensures closed == old(closed + Filling())
    {
      hide Frame, FrameFrom, Concat;
      if page == null {
        return;
      }
      var frame := page.EncodeInto(codec);
      ConcatSnoc(FrameEncoder(codec), closed, page.Samples());
      output := output + frame;
      frames := frames + 1;
      closed := closed + [page.Samples()];
      page := null;
    }

    /** Puts a sample on the page being filled; a page it would take back in time is written first. */
    method PutSample(s: Sample)
      requires Valid()
      modifies this`output, this`frames, this`page, this`seen, this`closed, page
      ensures output == FileBytes(codec, closed) && frames == |closed| && seen == old(seen) + [s]
      ensures page != null && (page != old(page) ==> fresh(page)) && page.Valid() && page.Started() && page.limits == limits
      ensures 0 < |page.Samples()| <= Capacity(limits)
      ensures Repack(seen, Capacity(limits)) == closed + [page.Samples()]
    {
      hide FileBytes, Zip, Frame, FrameFrom, InOrder, Repack, Extend, Capacity;
      ghost var before, cur := closed, if page == null then [] else page.Samples();
      RepackSnoc(seen, s, Capacity(limits));
      ExtendCases(before, cur, s, Capacity(limits));
      assert before + Filling() == if cur == [] then before else before + [cur];
      if page == null {
        page := new DataPage(s.ts, limits);
      }
      var err := page.AddSample(s);
      if err.Some? {
        assert page.Samples() == cur;
        FlushPage();
        page := new DataPage(s.ts, limits);
        err := page.AddSample(s);
        assert closed == before + [cur] && page.Samples() == [] + [s] == [s];
      } else {
        assert page.Samples() == cur + [s] && closed == before;
        assert [] + [s] == [s];
      }
      assert closed + [page.Samples()] == if cur == [] then before + [[s]]
                                          else if s.ts < EndOf(cur) then before + [cur] + [[s]]
                                          else before + [cur + [s]];
      seen := seen + [s];
    }

    method AppendSample(s: Sample)
      requires Valid()
      modifies this`output, this`frames, this`page, this`seen, this`closed, page
      ensures Valid() && seen == old(seen) + [s] && (page != null && page != old(page) ==> fresh(page))
    {
      hide FileBytes, Zip, Frame, FrameFrom, InOrder, Repack, Capacity;
      PutSample(s);
      var full := page.IsFull(false);
      if full {
        FlushPage();
      }
    }
  }

  /** One turn of the rewriting loop, as a reading step. */
  method ReadSourcePage(codec: Codec, blob: bytes, pos: nat) returns (turn: Step<(), Stored, FrameError>)
    requires pos <= |blob|
    ensures turn == Stepper(codec)(blob[pos..], ())
    ensures turn.More? ==> 0 < turn.used <= |blob| - pos
    ensures turn.Stop? <==> pos == |blob|
  {
    hide DecodeFrame, Consistent;
    if pos == |blob| { return Stop; }
    var decoded := DecodeFrom(codec, blob, pos);
    match decoded {
      case Err(e) => return Fail(e);
      case Ok((p, n)) =>
        var bad := Validate(p);
        NothingToCheck(p);
        if bad.Some? { return Fail(bad.value); }
        return More(p, (), n);
    }
  }

  lemma SamplesOfSnoc(ps: seq<Stored>, p: Stored)
    ensures SamplesOf(ps + [p]) == SamplesOf(ps) + p.samples
  {
    assert (ps + [p])[..|ps|] == ps;
  }

  /** Appends the samples of one source page. */
  method AppendPage(r: Recompactor, samples: Page)
    requires r.Valid()
    modifies r, r.page
    ensures r.Valid() && r.seen == old(r.seen) + samples && (r.page != null && r.page != old(r.page) ==> fresh(r.page))
  {
    hide Recompactor.Valid;
    for i := 0 to |samples|
      invariant r.Valid() && r.seen == old(r.seen) + samples[..i]
      invariant r.page != null && r.page != old(r.page) ==> fresh(r.page)
    {
      assert samples[..i + 1] == samples[..i] + [samples[i]];
      r.AppendSample(samples[i]);
    }
    assert samples[..|samples|] == samples;
  }

  /** Rewrites a data file blob into full pages. */
  method RecompactDataFileBlob(codec: Codec, blob: bytes, lim: Limits) returns (r: Result<(bytes, nat), FrameError>)
    ensures r == Recompacted(codec, blob, lim)
  {
    hide PageStep, Repack, Capacity, Recompactor.Valid, FileBytes, SamplesOf;
    var state := new Recompactor(codec, lim);
    ghost var read: seq<Stored> := [];
    var pos := 0;
    NoSamples();
    assert blob[0..] == blob;
    while pos < |blob|
      invariant pos <= |blob| && fresh(state) && (state.page != null ==> fresh(state.page))
      invariant state.Valid() && state.codec == codec && state.limits == lim && state.seen == SamplesOf(read)
      invariant ReadPages(codec, blob) == Resume(read, pos, ScanWith(Stepper(codec), blob[pos..], ()))
    {
      ResumeTurn(Stepper(codec), blob, pos, (), read);
      var turn := ReadSourcePage(codec, blob, pos);
      if turn.Fail? { return Err(turn.error); }
      assert ReadPages(codec, blob)
             == Resume(read + [turn.item], pos + turn.used, ScanWith(Stepper(codec), blob[pos + turn.used..], turn.state));
      assert turn.state == ();
      AppendPage(state, turn.item.samples);
      SamplesOfSnoc(read, turn.item);
      read := read + [turn.item];
      pos := pos + turn.used;
    }
    ResumeTurn(Stepper(codec), blob, pos, (), read);
    var turn := ReadSourcePage(codec, blob, pos);
    Finish(state);
    return Ok((state.output, state.frames));
  }

  lemma NoSamples()
    ensures SamplesOf([]) == []
  {
  }

  /** Writes the last page. */
  method Finish(state: Recompactor)
    requires state.Valid()
    modifies state
    ensures var pages := Repack(state.seen, Capacity(state.limits));
            state.output == FileBytes(state.codec, pages) && state.frames == |pages| && state.seen == old(state.seen)
  {
    hide FileBytes, Repack, Capacity, Zip, InOrder;
    state.FlushPage();
  }

  // ---------------------------------------------------------------- salvaging

  datatype RecoverReport = RecoverReport(
    recoveredFrames: nat, recoveredRecords: nat, skippedBytes: nat, rejectedFrames: nat,
    firstAcceptedOffset: int, lastAcceptedOffset: int)

  function RejectedFrames(ps: seq<Piece>): nat {
    if ps == [] then 0 else (if ps[0].Rejected? then 1 else 0) + RejectedFrames(ps[1..])
  }

  /** The pieces found so far, and those the rest of the file will give, are the pieces of the file. */
  ghost predicate SoFar(codec: Codec, t: Target, blob: bytes, pos: nat, last: Option<Timestamp>, found: seq<Piece>)
    requires pos <= |blob|
  {
    Pieces(codec, t, blob, None) == found + Pieces(codec, t, blob[pos..], last)
  }

  lemma SoFarNext(codec: Codec, t: Target, blob: bytes, pos: nat, last: Option<Timestamp>, found: seq<Piece>)
    requires pos < |blob| && SoFar(codec, t, blob, pos, last, found)
    ensures match GoodPage(codec, blob[pos..])
            case None => SoFar(codec, t, blob, pos + 1, last, found + [Skipped(blob[pos..pos + 1])])
            case Some((page, n)) =>
              if Accepts(t, page, last)
              then SoFar(codec, t, blob, pos + n, Some(page.end), found + [Kept(blob[pos..pos + n], page)])
              else SoFar(codec, t, blob, pos + n, last, found + [Rejected(blob[pos..pos + n])])
  {
    hide GoodPage, Accepts;
    var b := blob[pos..];
    assert b[..1] == blob[pos..pos + 1] && b[1..] == blob[pos + 1..];
    match GoodPage(codec, b)
    case None =>
      PiecesRegroup(found, Skipped(b[..1]), Pieces(codec, t, b[1..], last));
    case Some((page, n)) =>
      assert b[..n] == blob[pos..pos + n] && b[n..] == blob[pos + n..];
      PiecesRegroup(found, Kept(b[..n], page), Pieces(codec, t, b[n..], Some(page.end)));
      PiecesRegroup(found, Rejected(b[..n]), Pieces(codec, t, b[n..], last));
  }

  lemma PiecesRegroup(a: seq<Piece>, p: Piece, c: seq<Piece>)
    ensures a + ([p] + c) == a + [p] + c
  {
  }

  /** The file offset of the first kept piece, -1 without one. */
  function FirstOffset(ps: seq<Piece>): int {
    if ps == [] then -1
    else
      var first := FirstOffset(ps[..|ps| - 1]);
      if first < 0 && ps[|ps| - 1].Kept? then |Raws(ps[..|ps| - 1])| else first
  }

  function LastOffset(ps: seq<Piece>): int {
    if ps == [] then -1
    else if ps[|ps| - 1].Kept? then |Raws(ps[..|ps| - 1])|
    else LastOffset(ps[..|ps| - 1])
  }

  /** The report on a file cut into these pieces. */
  function ReportOf(ps: seq<Piece>): RecoverReport {
    RecoverReport(|KeptPages(ps)|, |SamplesOf(KeptPages(ps))|, SkippedBytes(ps), RejectedFrames(ps),
                  FirstOffset(ps), LastOffset(ps))
  }

  lemma SnocTail(ps: seq<Piece>, p: Piece)
    ensures ps == [] ==> ps + [p] == [p]
    ensures ps != [] ==> ps + [p] == [ps[0]] + (ps[1..] + [p]) && (ps + [p])[1..] == ps[1..] + [p]
  {
  }

  lemma {:induction false} RawsSnoc(ps: seq<Piece>, p: Piece)
    ensures Raws(ps + [p]) == Raws(ps) + p.raw
  {
    SnocTail(ps, p);
    if ps != [] {
      RawsSnoc(ps[1..], p);
    }
  }

  lemma {:induction false} RejectedSnoc(ps: seq<Piece>, p: Piece)
    ensures RejectedFrames(ps + [p]) == RejectedFrames(ps) + if p.Rejected? then 1 else 0
  {
    SnocTail(ps, p);
    if ps != [] {
      RejectedSnoc(ps[1..], p);
    }
  }

  lemma {:induction false} KeptSnoc(ps: seq<Piece>, p: Piece)
    ensures KeptPages(ps + [p]) == KeptPages(ps) + if p.Kept? then [p.page] else []
    ensures Output(ps + [p]) == Output(ps) + if p.Kept? then p.raw else []
    ensures SkippedBytes(ps + [p]) == SkippedBytes(ps) + if p.Skipped? then |p.raw| else 0
  {
    SnocTail(ps, p);
    if ps == [] {
      PieceAdds(p, []);
    } else {
      hide KeptPages, Output, SkippedBytes;
      KeptSnoc(ps[1..], p);
      PieceAdds(ps[0], ps[1..] + [p]);
      PieceAdds(ps[0], ps[1..]);
      assert [ps[0]] + ps[1..] == ps;
    }
  }

  lemma PiecesSnoc(ps: seq<Piece>, p: Piece)
    ensures Raws(ps + [p]) == Raws(ps) + p.raw
    ensures KeptPages(ps + [p]) == KeptPages(ps) + if p.Kept? then [p.page] else []
    ensures Output(ps + [p]) == Output(ps) + if p.Kept? then p.raw else []
    ensures SkippedBytes(ps + [p]) == SkippedBytes(ps) + if p.Skipped? then |p.raw| else 0
    ensures RejectedFrames(ps + [p]) == RejectedFrames(ps) + if p.Rejected? then 1 else 0
  {
    hide Raws, KeptPages, Output, SkippedBytes, RejectedFrames;
    RawsSnoc(ps, p);
    KeptSnoc(ps, p);
    RejectedSnoc(ps, p);
  }

  lemma OffsetsSnoc(ps: seq<Piece>, p: Piece)
    ensures FirstOffset(ps + [p]) == if FirstOffset(ps) < 0 && p.Kept? then |Raws(ps)| else FirstOffset(ps)
    ensures LastOffset(ps + [p]) == if p.Kept? then |Raws(ps)| else LastOffset(ps)
  {
    hide Raws;
    assert (ps + [p])[..|ps|] == ps;
  }

  /** How one more piece changes the report. */
  lemma ReportSnoc(ps: seq<Piece>, p: Piece)
    ensures var r, next := ReportOf(ps), ReportOf(ps + [p]);
            match p
            case Skipped(raw) => next == r.(skippedBytes := r.skippedBytes + |raw|)
            case Rejected(_) => next == r.(rejectedFrames := r.rejectedFrames + 1)
            case Kept(_, page) =>
              next == RecoverReport(
                r.recoveredFrames + 1, r.recoveredRecords + |page.samples|, r.skippedBytes, r.rejectedFrames,
                if r.firstAcceptedOffset < 0 then |Raws(ps)| else r.firstAcceptedOffset, |Raws(ps)|)
  {
    hide Raws, KeptPages, Output, SkippedBytes, RejectedFrames, FirstOffset, LastOffset, SamplesOf;
    PiecesSnoc(ps, p);
    OffsetsSnoc(ps, p);
    assert KeptPages(ps) + [] == KeptPages(ps);
    if p.Kept? {
      SamplesOfSnoc(KeptPages(ps), p.page);
    }
  }

  method Accept(t: Target, page: Stored, last: Option<Timestamp>) returns (ok: bool)
    ensures ok == Accepts(t, page, last)
  {
    if |page.samples| == 0 { return false; }
    if t.part(page.start) != t.p || t.part(page.end) != t.p { return false; }
    if last.Some? && page.end <= last.value { return false; }
    return true;
  }

  /** The page at position pos when one decodes there and passes the checks. */
  method TryPage(codec: Codec, blob: bytes, pos: nat) returns (r: Option<(Stored, nat)>)
    requires pos < |blob|
    ensures r == GoodPage(codec, blob[pos..])
  {
    hide DecodeFrame, Consistent;
    var decoded := DecodeFrom(codec, blob, pos);
    match decoded {
      case Err(_) => return None;
      case Ok((page, n)) =>
        var bad := Validate(page);
        return if bad.None? then Some((page, n)) else None;
    }
  }

  /** Salvages the pages of a damaged file. */
  method RecoverDataFileBlob(codec: Codec, t: Target, blob: bytes) returns (output: bytes, report: RecoverReport)
    ensures var ps := Pieces(codec, t, blob, None);
            output == Output(ps) && report == ReportOf(ps)
  {
    hide GoodPage, Accepts, Pieces, Raws, Output, ReportOf;
    output, report := [], RecoverReport(0, 0, 0, 0, -1, -1);
    var pos, last := 0, None;
    ghost var found: seq<Piece> := [];
    NothingFound(codec, t, blob);
    while pos < |blob|
      invariant pos <= |blob| && pos == |Raws(found)|
      invariant SoFar(codec, t, blob, pos, last, found)
      invariant output == Output(found) && report == ReportOf(found)
    {
      SoFarNext(codec, t, blob, pos, last, found);
      var good := TryPage(codec, blob, pos);
      ghost var piece := Skipped(blob[pos..pos + 1]);
      match good {
        case None =>
          report := report.(skippedBytes := report.skippedBytes + 1);
          pos := pos + 1;
        case Some((page, n)) =>
          var ok := Accept(t, page, last);
          if !ok {
            piece := Rejected(blob[pos..pos + n]);
            report := report.(rejectedFrames := report.rejectedFrames + 1);
          } else {
            piece := Kept(blob[pos..pos + n], page);
            output := output + blob[pos..pos + n];
            report := RecoverReport(
              report.recoveredFrames + 1, report.recoveredRecords + |page.samples|, report.skippedBytes,
              report.rejectedFrames, if report.firstAcceptedOffset < 0 then pos else report.firstAcceptedOffset, pos);
            last := Some(page.end);
          }
          pos := pos + n;
      }
      PiecesSnoc(found, piece);
      ReportSnoc(found, piece);
      found := found + [piece];
    }
    SoFarAll(codec, t, blob, pos, last, found);
  }

  lemma NothingFound(codec: Codec, t: Target, blob: bytes)
    ensures SoFar(codec, t, blob, 0, None, []) && Raws([]) == [] && Output([]) == []
    ensures ReportOf([]) == RecoverReport(0, 0, 0, 0, -1, -1)
  {
    hide Pieces;
    assert blob[0..] == blob;
  }

  lemma SoFarAll(codec: Codec, t: Target, blob: bytes, pos: nat, last: Option<Timestamp>, found: seq<Piece>)
    requires pos == |blob| && SoFar(codec, t, blob, pos, last, found)
    ensures Pieces(codec, t, blob, None) == found
  {
  }
}
