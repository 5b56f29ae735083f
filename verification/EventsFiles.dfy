/** Partition files of the events layer: frame after frame, walked by their headers or read one at a time. */
module EventsFiles {
  import opened Prelude
  import opened Bytes
  import opened Names
  import opened Frames
  import opened Codec
  import opened EventsCatalog
  import opened EventsWal
  import opened EventsFrames
  import opened EventsPages
  import opened EventsEngine

  /** The encoder of one frame; an empty page has none. */
  function FrameEncoder(codec: Codec): seq<Record> -> bytes {
    (rs: seq<Record>) => if rs == [] then [] else Frame(codec, rs)
  }

  /** The bytes of a partition file holding these pages. */
  function FileBytes(codec: Codec, pages: seq<seq<Record>>): bytes {
    Concat(FrameEncoder(codec), pages)
  }

  datatype FrameInfo = FrameInfo(offset: nat, header: Header)

  datatype FileError = TruncatedHeader | FrameOverCap | TruncatedFrame | BadFrame(cause: PageError)

  /** One turn of the header walk at file offset `offset`; the payload is skipped, not read. */
  function HeaderStep(b: bytes, offset: nat): (r: Step<nat, FrameInfo, FileError>) {
    if b == [] then Stop
    else if |b| < FRAME_HEADER_BYTES then Fail(TruncatedHeader)
    else
      var h := DecodeHeader(b[..FRAME_HEADER_BYTES]);
      var size := FRAME_HEADER_BYTES + h.compressedLen + 4;
      if h.compressedLen > MAX_FRAME_PAYLOAD then Fail(FrameOverCap)
      else if size > |b| then Fail(TruncatedFrame)
      else More(FrameInfo(offset, h), offset + size, size)
  }

  function Walk(b: bytes): (r: Scanned<nat, FrameInfo, FileError>) {
    ScanWith(HeaderStep, b, 0)
  }

  /** CollectEventsFrame: the frame at an offset, checked and fully decoded. */
  function Collect(codec: Codec, b: bytes, offset: nat, cat: Catalog): (r: Result<seq<Record>, FileError>) {
    if offset + FRAME_HEADER_BYTES > |b| then Err(TruncatedHeader)
    else
      var h := DecodeHeader(Sub(b, offset, FRAME_HEADER_BYTES));
      var at := offset + FRAME_HEADER_BYTES;
      if h.compressedLen > MAX_FRAME_PAYLOAD then Err(FrameOverCap)
      else if at + h.compressedLen + 4 > |b| then Err(TruncatedFrame)
      else
        match DecodePage(codec, h, Sub(b, at, h.compressedLen), LEVal(Sub(b, at + h.compressedLen, 4)), cat)
        case Err(e) => Err(BadFrame(e))
        case Ok(rs) => Ok(rs)
  }

  // ---------------------------------------------------------------- what a walk of a written file gives

  function InfoOf(codec: Codec, pages: seq<seq<Record>>, i: nat): FrameInfo
    requires i < |pages| && pages[i] != []
  {
    FrameInfo(|FileBytes(codec, pages[..i])|, HeaderOf(pages[i], |Compressed(codec, pages[i])|))
  }

  ghost predicate AllWritable(codec: Codec, pages: seq<seq<Record>>) {
    forall i :: 0 <= i < |pages| ==> Writable(codec, pages[i])
  }

  lemma FrameWalks(codec: Codec, rs: seq<Record>, offset: nat)
    requires Writable(codec, rs)
    ensures var z := Compressed(codec, rs);
            ReadsWhole(FrameEncoder(codec), HeaderStep, rs, offset, FrameInfo(offset, HeaderOf(rs, |z|)),
                       offset + |Frame(codec, rs)|)
  {
    var z := Compressed(codec, rs);
    var h := HeaderOf(rs, |z|);
    hide HeaderOf, Compressed, HeaderBytes, DecodeHeader, LE;
    HeaderRoundTrip(h);
    var tail := z + LE(codec.crc(z), 4);
    forall rest: bytes
      ensures HeaderStep(FrameEncoder(codec)(rs) + rest, offset)
              == More(FrameInfo(offset, h), offset + |Frame(codec, rs)|, |Frame(codec, rs)|)
    {
      var b := Frame(codec, rs) + rest;
      assert b[..FRAME_HEADER_BYTES] == HeaderBytes(h);
    }
  }

  /** The headers of a written file, with the offset of each frame. */
  function Infos(codec: Codec, pages: seq<seq<Record>>): (r: seq<FrameInfo>)
    requires forall i :: 0 <= i < |pages| ==> pages[i] != []
    ensures |r| == |pages|
  {
    seq(|pages|, i requires 0 <= i < |pages| => InfoOf(codec, pages, i))
  }

  function Offset(codec: Codec, pages: seq<seq<Record>>, i: nat): nat
    requires i <= |pages|
  {
    |FileBytes(codec, pages[..i])|
  }

  lemma NextOffset(codec: Codec, pages: seq<seq<Record>>, i: nat)
    requires i < |pages| && pages[i] != []
    ensures Offset(codec, pages, i + 1) == Offset(codec, pages, i) + |Frame(codec, pages[i])|
  {
    hide Frame, Concat;
    assert pages[..i + 1] == pages[..i] + [pages[i]];
    ConcatSnoc(FrameEncoder(codec), pages[..i], pages[i]);
  }

  lemma WalkAt(codec: Codec, pages: seq<seq<Record>>, i: nat)
    requires i < |pages| && Writable(codec, pages[i])
    ensures ReadsWhole(FrameEncoder(codec), HeaderStep, pages[i], Offset(codec, pages, i), InfoOf(codec, pages, i),
                       Offset(codec, pages, i + 1))
  {
    hide HeaderStep, HeaderOf, Compressed, HeaderBytes, ReadsWhole, Frame, FrameEncoder, Concat, FileBytes;
    NextOffset(codec, pages, i);
    FrameWalks(codec, pages[i], Offset(codec, pages, i));
  }

  /** Walking a written file yields one header per page, in order, with the page's own bounds and bitmap. */
  lemma WalkOfFile(codec: Codec, pages: seq<seq<Record>>)
    requires AllWritable(codec, pages)
    ensures Walk(FileBytes(codec, pages))
            == Scanned(Infos(codec, pages), |FileBytes(codec, pages)|, |FileBytes(codec, pages)|)
  {
    hide InfoOf, ReadsWhole, Frame, Concat;
    var f := FrameEncoder(codec);
    var ss: seq<nat> := seq(|pages| + 1, i requires 0 <= i <= |pages| => Offset(codec, pages, i));
    var ds := Infos(codec, pages);
    forall i | 0 <= i < |pages| ensures ReadsWhole(f, HeaderStep, pages[i], ss[i], ds[i], ss[i + 1]) {
      WalkAt(codec, pages, i);
    }
    assert AllRead(f, HeaderStep, pages, ss, ds);
    hide AllRead, Infos, HeaderStep;
    assert pages[..0] == [];
    NoFrames(f);
    StopsAtEnd(ss[|pages|]);
    ScanOfAllFrames(f, HeaderStep, pages, ss, ds);
    assert pages[..|pages|] == pages;
  }

  lemma StopsAtEnd(offset: nat)
    ensures HeaderStep([], offset) == Stop
  {
  }

  /** Reading the frame at the offset the walk gave for page i gives page i back. */
  lemma CollectOfFile(codec: Codec, pages: seq<seq<Record>>, i: nat, cat: Catalog)
    requires codec.Lossless() && AllWritable(codec, pages) && i < |pages| && Typed(cat, pages[i])
    ensures Collect(codec, FileBytes(codec, pages), InfoOf(codec, pages, i).offset, cat) == Ok(pages[i])
  {
    hide Frame, Concat, Collect, Typed, HeaderOf, Compressed;
    var f := FrameEncoder(codec);
    var pre, rest := Concat(f, pages[..i]), Concat(f, pages[i + 1..]);
    assert pages == (pages[..i] + [pages[i]]) + pages[i + 1..];
    ConcatAppend(f, pages[..i] + [pages[i]], pages[i + 1..]);
    ConcatSnoc(f, pages[..i], pages[i]);
    assert FileBytes(codec, pages) == pre + Frame(codec, pages[i]) + rest;
    assert Writable(codec, pages[i]);
    CollectAt(codec, pre, pages[i], rest, cat);
  }

  lemma CollectAt(codec: Codec, pre: bytes, rs: seq<Record>, rest: bytes, cat: Catalog)
    requires codec.Lossless() && Writable(codec, rs) && Typed(cat, rs)
    ensures Collect(codec, pre + Frame(codec, rs) + rest, |pre|, cat) == Ok(rs)
  {
    PageRoundTrip(codec, cat, rs);
    var z := Compressed(codec, rs);
    var h := HeaderOf(rs, |z|);
    HeaderRoundTrip(h);
    hide HeaderOf, Compressed, HeaderBytes, DecodeHeader, LE, LEVal, DecodePage, Frame, Typed;
    var hb, crc := HeaderBytes(h), LE(codec.crc(z), 4);
    assert Frame(codec, rs) == hb + z + crc by {
      FrameParts(codec, rs);
    }
    CutFrame(pre, hb, z, crc, rest);
    PowWidths();
    LERoundTrip(codec.crc(z), 4);
  }

  lemma FrameParts(codec: Codec, rs: seq<Record>)
    requires rs != []
    ensures var z := Compressed(codec, rs);
            Frame(codec, rs) == HeaderBytes(HeaderOf(rs, |z|)) + z + LE(codec.crc(z), 4)
  {
  }

  // ---------------------------------------------------------------- summary numbers

  datatype FileStats = FileStats(frames: nat, records: nat, compressed: nat, frameBytes: nat, minStart: Timestamp, maxEnd: Timestamp)

  function AddFrame(s: FileStats, i: FrameInfo): FileStats {
    FileStats(
      s.frames + 1, s.records + i.header.count, s.compressed + i.header.compressedLen,
      s.frameBytes + FRAME_HEADER_BYTES + i.header.compressedLen + 4,
      if s.frames == 0 || i.header.start < s.minStart then i.header.start else s.minStart,
      if s.frames == 0 || i.header.end > s.maxEnd then i.header.end else s.maxEnd)
  }

  function StatsOf(fs: seq<FrameInfo>): FileStats {
    if fs == [] then FileStats(0, 0, 0, 0, 0, 0) else AddFrame(StatsOf(fs[..|fs| - 1]), fs[|fs| - 1])
  }

  /** The scan's maximum end time is the replay watermark of the partition. */
  lemma {:induction false} StatsGiveWatermark(codec: Codec, pages: seq<seq<Record>>)
    requires forall i :: 0 <= i < |pages| ==> pages[i] != []
    ensures GivesWatermark(StatsOf(Infos(codec, pages)), pages)
  {
    if pages != [] {
      hide *;
      StatsGiveWatermark(codec, pages[..|pages| - 1]);
      InfosOfInit(codec, pages);
      LastInfo(codec, pages);
      WatermarkStep(Infos(codec, pages), pages);
    }
  }

  /** The scan counted the pages, and its maximum end is their watermark. */
  ghost predicate GivesWatermark(s: FileStats, pages: seq<seq<Record>>) {
    s.frames == |pages| && Watermark(pages) == if s.frames > 0 then Some(s.maxEnd) else None
  }

  lemma WatermarkStep(fs: seq<FrameInfo>, pages: seq<seq<Record>>)
    requires |fs| == |pages| > 0
    requires var k := |pages| - 1;
             pages[k] != [] && fs[k].header.end == MaxTs(pages[k]) && GivesWatermark(StatsOf(fs[..k]), pages[..k])
    ensures GivesWatermark(StatsOf(fs), pages)
  {
    hide MaxTs;
  }

  lemma LastInfo(codec: Codec, pages: seq<seq<Record>>)
    requires pages != [] && forall i :: 0 <= i < |pages| ==> pages[i] != []
    ensures Infos(codec, pages)[|pages| - 1].header.end == MaxTs(pages[|pages| - 1])
  {
    hide FileBytes, Compressed, BitsOf, MinTs, MaxTs;
  }

  lemma InfosOfInit(codec: Codec, pages: seq<seq<Record>>)
    requires pages != [] && forall i :: 0 <= i < |pages| ==> pages[i] != []
    ensures Infos(codec, pages)[..|pages| - 1] == Infos(codec, pages[..|pages| - 1])
  {
    hide InfoOf, Offset, FileBytes, Compressed;
    var init, fs := pages[..|pages| - 1], Infos(codec, pages);
    forall i | 0 <= i < |init| ensures fs[i] == Infos(codec, init)[i] {
      InfoOfInit(codec, pages, i);
    }
  }

  lemma InfoOfInit(codec: Codec, pages: seq<seq<Record>>, i: nat)
    requires i < |pages| - 1 && forall j :: 0 <= j < |pages| ==> pages[j] != []
    ensures InfoOf(codec, pages, i) == InfoOf(codec, pages[..|pages| - 1], i)
  {
    hide FileBytes, Compressed, BitsOf, MinTs, MaxTs;
    assert pages[..i] == pages[..|pages| - 1][..i];
  }

  method WalkEventsFileHeaders(blob: bytes) returns (r: Result<(seq<FrameInfo>, FileStats), FileError>)
    ensures match Walk(blob)
            case Scanned(fs, _, _) => r == Ok((fs, StatsOf(fs)))
            case Failed(e) => r == Err(e)
  {
    hide HeaderStep, AddFrame;
    var frames: seq<FrameInfo> := [];
    var stats := FileStats(0, 0, 0, 0, 0, 0);
    var offset: nat := 0;
    assert Walk(blob) == Resume(frames, offset, ScanWith(HeaderStep, blob[offset..], offset)) by {
      assert blob[0..] == blob;
    }
    while true
      invariant offset <= |blob|
      invariant stats == StatsOf(frames)
      invariant Walk(blob) == Resume(frames, offset, ScanWith(HeaderStep, blob[offset..], offset))
      decreases |blob| - offset
    {
      ResumeTurn(HeaderStep, blob, offset, offset, frames);
      var turn := ReadHeader(blob, offset);
      if turn.Stop? {
        break;
      }
      if turn.Fail? {
        return Err(turn.error);
      }
      StatsSnoc(frames, turn.item);
      frames := frames + [turn.item];
      stats := AddFrame(stats, turn.item);
      offset := offset + turn.used;
    }
    return Ok((frames, stats));
  }

  lemma StatsSnoc(fs: seq<FrameInfo>, i: FrameInfo)
    ensures StatsOf(fs + [i]) == AddFrame(StatsOf(fs), i)
  {
    assert (fs + [i])[..|fs|] == fs;
  }

  method ReadHeader(blob: bytes, offset: nat) returns (s: Step<nat, FrameInfo, FileError>)
    requires offset <= |blob|
    ensures s == HeaderStep(blob[offset..], offset)
    ensures s.More? ==> 0 < s.used <= |blob| - offset && s.state == offset + s.used
  {
    if offset == |blob| { return Stop; }
    if offset + FRAME_HEADER_BYTES > |blob| { return Fail(TruncatedHeader); }
    assert blob[offset..][..FRAME_HEADER_BYTES] == Sub(blob, offset, FRAME_HEADER_BYTES);
    var h := DecodeHeader(Sub(blob, offset, FRAME_HEADER_BYTES));
    if h.compressedLen > MAX_FRAME_PAYLOAD { return Fail(FrameOverCap); }
    var size := FRAME_HEADER_BYTES + h.compressedLen + 4;
    if offset + size > |blob| { return Fail(TruncatedFrame); }
    return More(FrameInfo(offset, h), offset + size, size);
  }

  method CollectEventsFrame(codec: Codec, blob: bytes, offset: nat, cat: EventCatalog)
    returns (r: Result<EventsPage, FileError>)
    ensures match Collect(codec, blob, offset, cat.View())
            case Err(e) => r == Err(e)
            case Ok(rs) => r.Ok? && fresh(r.value) && r.value.Aligned() && r.value.Records() == rs
  {
    hide DecodePage, DecodeHeader, LEVal;
    if offset + FRAME_HEADER_BYTES > |blob| { return Err(TruncatedHeader); }
    var h := DecodeHeader(Sub(blob, offset, FRAME_HEADER_BYTES));
    var at := offset + FRAME_HEADER_BYTES;
    if h.compressedLen > MAX_FRAME_PAYLOAD { return Err(FrameOverCap); }
    if at + h.compressedLen + 4 > |blob| { return Err(TruncatedFrame); }
    var crc := LEVal(Sub(blob, at + h.compressedLen, 4));
    var page := new EventsPage(0, Limits(0, 0, 0));
    var err := page.DecodeFromFrame(codec, h, Sub(blob, at, h.compressedLen), crc, cat);
    if err.Some? { return Err(BadFrame(err.value)); }
    return Ok(page);
  }
}
