/** The header scan of a data file: what replay takes its watermark from. */
module DataFileStats {
  import opened Prelude
  import opened Bytes
  import opened Frames
  import opened Codec
  import opened Samples
  import opened DataPages
  import opened Recompact
  import opened MetricEngine

  /** The start, end and record count of a frame. */
  datatype FrameBounds = FrameBounds(start: Timestamp, end: Timestamp, records: nat)

  datatype ScanError = ShortHeader | MalformedLength | ShortPayload

  /** How far a payload length moves the reader: the length as a signed 64-bit integer plus four, which may wrap. */
  function SkipOf(len: nat): (n: int) {
    var signed := if len % TWO_64 < TWO_63 then len % TWO_64 else len % TWO_64 - TWO_64;
    if signed + 4 < TWO_63 then signed + 4 else signed + 4 - TWO_64
  }

  /** One turn of the scan; a skip that is not positive copies nothing. */
  function BoundsStep(b: bytes, u: ()): (r: Step<(), FrameBounds, ScanError>)
    ensures r.More? ==> 0 < r.used <= |b|
  {
    if b == [] then Stop
    else if |b| < HEADER_SIZE then Fail(ShortHeader)
    else
      match Uvarint(b[HEADER_SIZE..])
      case None => Fail(MalformedLength)
      case Some((len, n)) =>
        var skip := SkipOf(len);
        if skip > |b| - HEADER_SIZE - n then Fail(ShortPayload)
        else
          More(FrameBounds(TsVal(Sub(b, 0, 8)), TsVal(Sub(b, 8, 8)), LEVal(Sub(b, 16, 2))), (),
               HEADER_SIZE + n + Max(skip, 0))
  }

  function ScanBounds(b: bytes): (r: Scanned<(), FrameBounds, ScanError>) {
    ScanWith(BoundsStep, b, ())
  }

  datatype FileStats = FileStats(frames: nat, records: nat, minStart: Timestamp, maxEnd: Timestamp)

  function AddBounds(s: FileStats, f: FrameBounds): FileStats {
    FileStats(s.frames + 1, s.records + f.records,
              if s.frames == 0 || f.start < s.minStart then f.start else s.minStart,
              if s.frames == 0 || f.end > s.maxEnd then f.end else s.maxEnd)
  }

  function StatsOf(fs: seq<FrameBounds>): FileStats {
    if fs == [] then FileStats(0, 0, 0, 0) else AddBounds(StatsOf(fs[..|fs| - 1]), fs[|fs| - 1])
  }

  // ---------------------------------------------------------------- written files

  /** A page whose compressed payload is a slice a process can hold. */
  ghost predicate Storable(codec: Codec, page: Page) {
    page != [] && |Compressed(codec, page)| < MAX_SLICE
  }

  ghost predicate AllStorable(codec: Codec, pages: seq<Page>) {
    forall i :: 0 <= i < |pages| ==> Storable(codec, pages[i])
  }

  function BoundsOf(page: Page): FrameBounds
    requires page != []
  {
    FrameBounds(page[0].ts, EndOf(page), |page| % TWO_16)
  }

  lemma HeaderBounds(start: Timestamp, end: Timestamp, n: nat, rest: bytes)
    ensures var b := HeaderBytes(start, end, n) + rest;
            TsVal(Sub(b, 0, 8)) == start && TsVal(Sub(b, 8, 8)) == end && LEVal(Sub(b, 16, 2)) == n % TWO_16
  {
    hide LE, LETs, LEVal, TsVal;
    var b := HeaderBytes(start, end, n) + rest;
    assert Sub(b, 0, 8) == LETs(start);
    assert Sub(b, 8, 8) == LETs(end);
    assert Sub(b, 16, 2) == LE(n % TWO_16, 2);
    PowWidths();
    LERoundTrip(n % TWO_16, 2);
    TsRoundTrip(start);
    TsRoundTrip(end);
  }

  lemma FrameBoundsRead(codec: Codec, page: Page, rest: bytes)
    requires Storable(codec, page)
    ensures BoundsStep(Frame(codec, page) + rest, ()) == More(BoundsOf(page), (), |Frame(codec, page)|)
  {
    hide LE, LETs, LEVal, TsVal, PutUvarint, Uvarint, HeaderBytes, Compressed;
    var z := Compressed(codec, page);
    var h, u, c := HeaderBytes(page[0].ts, EndOf(page), |page|), PutUvarint(|z|), LE(codec.crc(z), 4);
    CutParts(h, u, z, c, rest);
    UvarintRoundTrip(|z|, z + c + rest);
    HeaderBounds(page[0].ts, EndOf(page), |page|, u + z + c + rest);
    assert h + u + z + c + rest == h + (u + z + c + rest);
    assert SkipOf(|z|) == |z| + 4;
  }

  function AllBounds(pages: seq<Page>): (fs: seq<FrameBounds>)
    requires forall i :: 0 <= i < |pages| ==> pages[i] != []
    ensures |fs| == |pages|
  {
    seq(|pages|, i requires 0 <= i < |pages| => BoundsOf(pages[i]))
  }

  /** Scanning a written file gives the bounds of its pages, in order. */
  lemma ScanOfFile(codec: Codec, pages: seq<Page>)
    requires AllStorable(codec, pages)
    ensures forall i :: 0 <= i < |pages| ==> pages[i] != []
    ensures ScanBounds(FileBytes(codec, pages)) == Scanned(AllBounds(pages), (), |FileBytes(codec, pages)|)
  {
    StorableNonEmpty(codec, pages);
    hide BoundsStep, Frame, Concat, BoundsOf, ReadsWhole, Storable;
    var ss: seq<()> := seq(|pages| + 1, _ => ());
    var ds := AllBounds(pages);
    forall i | 0 <= i < |pages|
      ensures ReadsWhole(FrameEncoder(codec), BoundsStep, pages[i], ss[i], ds[i], ss[i + 1])
    {
      FrameBoundsReads(codec, pages[i]);
    }
    assert AllRead(FrameEncoder(codec), BoundsStep, pages, ss, ds);
    StopsOnNothing();
    ScanOfAllFrames(FrameEncoder(codec), BoundsStep, pages, ss, ds);
  }

  lemma StorableNonEmpty(codec: Codec, pages: seq<Page>)
    requires AllStorable(codec, pages)
    ensures forall i :: 0 <= i < |pages| ==> pages[i] != []
  {
    forall i | 0 <= i < |pages| ensures pages[i] != [] {
      assert Storable(codec, pages[i]);
    }
  }

  lemma StopsOnNothing()
    ensures BoundsStep([], ()) == Stop
  {
  }

  lemma FrameBoundsReads(codec: Codec, page: Page)
    requires Storable(codec, page)
    ensures ReadsWhole(FrameEncoder(codec), BoundsStep, page, (), BoundsOf(page), ())
  {
    hide BoundsStep, Frame;
    forall rest: bytes
      ensures BoundsStep(FrameEncoder(codec)(page) + rest, ()) == More(BoundsOf(page), (), |Frame(codec, page)|)
    {
      FrameBoundsRead(codec, page, rest);
    }
    FrameIsLong(codec, page);
  }

  lemma FrameIsLong(codec: Codec, page: Page)
    requires page != []
    ensures |Frame(codec, page)| > 0
  {
  }

  /** The largest end of the scan is the watermark of the partition's frames. */
  lemma {:induction false} StatsGiveMark(pages: seq<Page>)
    requires forall i :: 0 <= i < |pages| ==> pages[i] != []
    ensures var s := StatsOf(AllBounds(pages));
            s.frames == |pages| && Mark(pages) == if s.frames == 0 then -1 else s.maxEnd
  {
    if pages != [] {
      var init := pages[..|pages| - 1];
      StatsGiveMark(init);
      assert AllBounds(pages)[..|pages| - 1] == AllBounds(init);
    }
  }

  // ---------------------------------------------------------------- the loops

  /** x + 128^i * v, the value of a varint whose first i bytes gave x. */
  function Combine(x: nat, i: nat, r: Option<(nat, nat)>): Option<(nat, nat)> {
    match r case None => None case Some((v, n)) => Some((x + Pow128(i) * v, i + n))
  }

  lemma CombineTurn(b: bytes, i: nat, x: nat)
    requires i < |b| && i < MAX_VARINT_LEN
    ensures var r := Combine(x, i, UvarintAt(b[i..], i));
            if b[i] < 128
            then r == if i == MAX_VARINT_LEN - 1 && b[i] > 1 then None else Some((x + Pow128(i) * b[i], i + 1))
            else r == Combine(x + Pow128(i) * (b[i] - 128), i + 1, UvarintAt(b[i + 1..], i + 1))
  {
    if b[i] >= 128 {
      assert b[i..][1..] == b[i + 1..];
      match UvarintAt(b[i + 1..], i + 1)
      case None =>
      case Some((v, n)) => Distribute(Pow128(i), b[i] - 128, v);
    }
  }

  lemma Distribute(p: nat, a: nat, v: nat)
    ensures p * (a + 128 * v) == p * a + (128 * p) * v
  {
  }

  /** readUvarintCount on the bytes at the reader's position. */
  method ReadUvarintCount(b: bytes) returns (r: Option<(nat, nat)>)
    ensures r == Uvarint(b)
  {
    hide Pow128, Uvarint, UvarintAt, Combine;
    var x: nat, i: nat, scale: nat := 0, 0, 1;
    CombineStart(b);
    while i < MAX_VARINT_LEN
      invariant i <= MAX_VARINT_LEN && i <= |b| && scale == Pow128(i)
      invariant Uvarint(b) == Combine(x, i, UvarintAt(b[i..], i))
    {
      if i == |b| {
        CombineOut(b, x, i);
        return None;
      }
      CombineTurn(b, i, x);
      if b[i] < 0x80 {
        if i == MAX_VARINT_LEN - 1 && b[i] > 1 { return None; }
        return Some((x + scale * b[i], i + 1));
      }
      x := x + scale * (b[i] - 0x80);
      PowNext(i);
      scale := 128 * scale;
      i := i + 1;
    }
    CombineEnd(b, x);
    return None;
  }

  lemma CombineStart(b: bytes)
    ensures Pow128(0) == 1 && Uvarint(b) == Combine(0, 0, UvarintAt(b[0..], 0))
  {
    assert b[0..] == b;
  }

  lemma CombineEnd(b: bytes, x: nat)
    requires |b| >= MAX_VARINT_LEN
    ensures Combine(x, MAX_VARINT_LEN, UvarintAt(b[MAX_VARINT_LEN..], MAX_VARINT_LEN)) == None
  {
  }

  lemma CombineOut(b: bytes, x: nat, i: nat)
    requires i == |b|
    ensures Combine(x, i, UvarintAt(b[i..], i)) == None
  {
  }

  lemma PowNext(i: nat)
    ensures Pow128(i + 1) == 128 * Pow128(i)
  {
  }

  /** ScanDataFileStats. */
  method ScanDataFileStats(blob: bytes) returns (r: Result<FileStats, ScanError>)
    ensures match ScanBounds(blob)
            case Scanned(fs, _, _) => r == Ok(StatsOf(fs))
            case Failed(e) => r == Err(e)
  {
    hide BoundsStep, AddBounds;
    var stats := FileStats(0, 0, 0, 0);
    ghost var seen: seq<FrameBounds> := [];
    var pos: nat := 0;
    assert blob[0..] == blob;
    while true
      invariant pos <= |blob| && stats == StatsOf(seen)
      invariant ScanBounds(blob) == Resume(seen, pos, ScanWith(BoundsStep, blob[pos..], ()))
      decreases |blob| - pos
    {
      ResumeTurn(BoundsStep, blob, pos, (), seen);
      var turn := ReadBounds(blob, pos);
      if turn.Stop? { break; }
      if turn.Fail? { return Err(turn.error); }
      assert turn.state == ();
      assert (seen + [turn.item])[..|seen|] == seen;
      seen := seen + [turn.item];
      stats := AddBounds(stats, turn.item);
      pos := pos + turn.used;
    }
    return Ok(stats);
  }

  method ReadBounds(blob: bytes, pos: nat) returns (turn: Step<(), FrameBounds, ScanError>)
    requires pos <= |blob|
    ensures turn == BoundsStep(blob[pos..], ())
    ensures turn.More? ==> 0 < turn.used <= |blob| - pos
  {
    hide Uvarint, LEVal, TsVal;
    var b := blob[pos..];
    if pos == |blob| { return Stop; }
    if |b| < HEADER_SIZE { return Fail(ShortHeader); }
    var start, end, records := TsVal(Sub(b, 0, 8)), TsVal(Sub(b, 8, 8)), LEVal(Sub(b, 16, 2));
    var length := ReadUvarintCount(b[HEADER_SIZE..]);
    if length.None? { return Fail(MalformedLength); }
    var skip := SkipOf(length.value.0);
    if skip > |b| - HEADER_SIZE - length.value.1 { return Fail(ShortPayload); }
    return More(FrameBounds(start, end, records), (), HEADER_SIZE + length.value.1 + Max(skip, 0));
  }
}
