/**
 The frames of a data-<partition>.dat file: an 18-byte header, the compressed columns of a page, a checksum.
 */
module DataPages {
  import opened Prelude
  import opened Bytes
  import opened Frames
  import opened Codec
  import opened Samples

  const HEADER_SIZE: int := 18

  /** A page as its frame tells it: the header's bounds and the samples. */
  datatype Stored = Stored(start: Timestamp, end: Timestamp, samples: Page)

  datatype FrameError =
    | ShortFrame
    | BadLength
    | OverCap
    | CrcMismatch
    | BadCompression
    | PayloadMismatch
    | StartMismatch
    | EndMismatch
    | Rollback

  // ---------------------------------------------------------------- columns

  function IdBytes(s: Sample): (b: bytes)
    ensures |b| == 2
  {
    LE(s.id, 2)
  }

  function TimeBytes(s: Sample): (b: bytes)
    ensures |b| == 8
  {
    LETs(s.ts)
  }

  function RawBytes(s: Sample): (b: bytes)
    ensures |b| == 4
  {
    LE(s.raw, 4)
  }

  /** Ids, then times, then values. */
  function Payload(page: Page): bytes {
    Concat(IdBytes, page) + Concat(TimeBytes, page) + Concat(RawBytes, page)
  }

  function SampleAt(p: bytes, n: nat, i: nat): Sample
    requires i < n && |p| == 14 * n
  {
    Sample(LEVal(Sub(p, 2 * i, 2)), TsVal(Sub(p, 2 * n + 8 * i, 8)), LEVal(Sub(p, 10 * n + 4 * i, 4)))
  }

  function Columns(p: bytes, n: nat): (page: Page)
    requires |p| == 14 * n
    ensures |page| == n
  {
    seq(n, i requires 0 <= i < n => SampleAt(p, n, i))
  }

  lemma PayloadLength(page: Page)
    ensures |Concat(IdBytes, page)| == 2 * |page| && |Concat(TimeBytes, page)| == 8 * |page|
    ensures |Concat(RawBytes, page)| == 4 * |page| && |Payload(page)| == 14 * |page|
  {
    FixedWidth(IdBytes, page, 2);
    FixedWidth(TimeBytes, page, 8);
    FixedWidth(RawBytes, page, 4);
  }

  /** A slice of one of three concatenated columns, in terms of the column. */
  lemma SubParts(a: bytes, t: bytes, v: bytes, off: nat, k: nat)
    ensures off + k <= |a| ==> Sub(a + t + v, off, k) == Sub(a, off, k)
    ensures off + k <= |t| ==> Sub(a + t + v, |a| + off, k) == Sub(t, off, k)
    ensures off + k <= |v| ==> Sub(a + t + v, |a| + |t| + off, k) == Sub(v, off, k)
  {
  }

  lemma PayloadAt(page: Page, i: nat)
    requires i < |page| && ValidSample(page[i])
    ensures |Payload(page)| == 14 * |page| && SampleAt(Payload(page), |page|, i) == page[i]
  {
    hide Concat, LE, LETs, LEVal, TsVal;
    PayloadLength(page);
    var n, s := |page|, page[i];
    var a, t, v := Concat(IdBytes, page), Concat(TimeBytes, page), Concat(RawBytes, page);
    FixedAt(IdBytes, page, 2, i);
    FixedAt(TimeBytes, page, 8, i);
    FixedAt(RawBytes, page, 4, i);
    SubParts(a, t, v, 2 * i, 2);
    SubParts(a, t, v, 8 * i, 8);
    SubParts(a, t, v, 4 * i, 4);
    PowWidths();
    LERoundTrip(s.id, 2);
    LERoundTrip(s.raw, 4);
    TsRoundTrip(s.ts);
  }

  /** Splitting the columns gives the samples back. */
  lemma ColumnsRoundTrip(page: Page)
    requires AllValid(page)
    ensures |Payload(page)| == 14 * |page| && Columns(Payload(page), |page|) == page
  {
    hide Payload, SampleAt;
    PayloadLength(page);
    forall i | 0 <= i < |page| ensures Columns(Payload(page), |page|)[i] == page[i] {
      PayloadAt(page, i);
    }
  }

  // ---------------------------------------------------------------- frames

  /** The record count is a 16-bit field. */
  function HeaderBytes(start: Timestamp, end: Timestamp, n: nat): (b: bytes)
    ensures |b| == HEADER_SIZE
  {
    LETs(start) + LETs(end) + LE(n % TWO_16, 2)
  }

  function Compressed(codec: Codec, page: Page): bytes {
    codec.compress(Payload(page))
  }

  /** The frame EncodeInto writes for a page that is not empty. */
  function Frame(codec: Codec, page: Page): (b: bytes)
    requires page != []
  {
    var z := Compressed(codec, page);
    HeaderBytes(page[0].ts, EndOf(page), |page|) + PutUvarint(|z|) + z + LE(codec.crc(z), 4)
  }

  /** The bytes DecodeFrom would consume at the head of b, with the header's count and the compressed payload. */
  datatype Raw = Raw(start: Timestamp, end: Timestamp, count: nat, z: bytes, crc: nat, used: nat)

  function SplitFrame(b: bytes): (r: Result<Raw, FrameError>)
    ensures r.Ok? ==> HEADER_SIZE < r.value.used <= |b|
  {
    if |b| < HEADER_SIZE then Err(ShortFrame)
    else
      match Uvarint(b[HEADER_SIZE..])
      case None => Err(BadLength)
      case Some((len, n)) =>
        var at := HEADER_SIZE + n;
        if len > MAX_FRAME_PAYLOAD then Err(OverCap)
        else if at + len + 4 > |b| then Err(ShortFrame)
        else
          Ok(Raw(TsVal(Sub(b, 0, 8)), TsVal(Sub(b, 8, 8)), LEVal(Sub(b, 16, 2)),
                 Sub(b, at, len), LEVal(Sub(b, at + len, 4)), at + len + 4))
  }

  /** DecodeCompressedFrame. */
  function Unpack(codec: Codec, raw: Raw): (r: Result<Stored, FrameError>) {
    if codec.crc(raw.z) != raw.crc then Err(CrcMismatch)
    else
      match codec.decompress(raw.z)
      case None => Err(BadCompression)
      case Some(p) =>
        if |p| != 14 * raw.count then Err(PayloadMismatch)
        else Ok(Stored(raw.start, raw.end, Columns(p, raw.count)))
  }

  /** DecodeFrom, with the bytes it consumes. */
  function DecodeFrame(codec: Codec, b: bytes): (r: Result<(Stored, nat), FrameError>)
    ensures r.Ok? ==> HEADER_SIZE < r.value.1 <= |b|
  {
    match SplitFrame(b)
    case Err(e) => Err(e)
    case Ok(raw) =>
      match Unpack(codec, raw)
      case Err(e) => Err(e)
      case Ok(page) => Ok((page, raw.used))
  }

  /** validateRecompactSourcePage. */
  predicate Consistent(p: Stored) {
    p.samples != [] ==>
      && p.start == p.samples[0].ts
      && p.end == EndOf(p.samples)
      && forall i :: 1 <= i < |p.samples| ==> p.samples[i - 1].ts <= p.samples[i].ts
  }

  function StoredOf(page: Page): Stored
    requires page != []
  {
    Stored(page[0].ts, EndOf(page), page)
  }

  lemma {:induction false} StepsOrder(page: Page, i: nat, j: nat)
    requires forall k :: 1 <= k < |page| ==> page[k - 1].ts <= page[k].ts
    requires i <= j < |page|
    ensures page[i].ts <= page[j].ts
    decreases j
  {
    if i < j {
      StepsOrder(page, i, j - 1);
    }
  }

  /** The checks hold exactly of pages in time order whose header tells their ends. */
  lemma ConsistentIff(p: Stored)
    ensures Consistent(p) <==> (p.samples == [] || (InOrder(p.samples) && p == StoredOf(p.samples)))
  {
    if Consistent(p) {
      forall i, j | 0 <= i < j < |p.samples| ensures p.samples[i].ts <= p.samples[j].ts {
        StepsOrder(p.samples, i, j);
      }
    }
  }

  // ---------------------------------------------------------------- decoding inverts encoding

  /** The page fits a frame: its count fits 16 bits and its payload the cap. */
  ghost predicate Writable(codec: Codec, page: Page) {
    page != [] && |page| < TWO_16 && AllValid(page) && |Compressed(codec, page)| <= MAX_FRAME_PAYLOAD
  }

  /** The record count fits its 16-bit field. */
  predicate Narrow(page: Page) {
    |page| < TWO_16
  }

  lemma CutParts(h: bytes, u: bytes, z: bytes, c: bytes, rest: bytes)
    ensures var b := h + u + z + c + rest;
            && |b| == |h| + |u| + |z| + |c| + |rest|
            && b[..|h|] == h && b[|h|..] == u + (z + c + rest)
            && Sub(b, |h| + |u|, |z|) == z && Sub(b, |h| + |u| + |z|, |c|) == c
  {
  }

  lemma HeaderFields(start: Timestamp, end: Timestamp, n: nat, b: bytes)
    requires n < TWO_16 && |b| >= HEADER_SIZE && b[..HEADER_SIZE] == HeaderBytes(start, end, n)
    ensures TsVal(Sub(b, 0, 8)) == start && TsVal(Sub(b, 8, 8)) == end && LEVal(Sub(b, 16, 2)) == n
  {
    hide LE, LETs, LEVal, TsVal;
    var h := b[..HEADER_SIZE];
    assert Sub(b, 0, 8) == Sub(h, 0, 8) == LETs(start);
    assert Sub(b, 8, 8) == Sub(h, 8, 8) == LETs(end);
    assert Sub(b, 16, 2) == Sub(h, 16, 2) == LE(n, 2);
    PowWidths();
    LERoundTrip(n, 2);
    TsRoundTrip(start);
    TsRoundTrip(end);
  }

  lemma SplitRoundTrip(codec: Codec, page: Page, rest: bytes)
    requires codec.Lossless() && Writable(codec, page)
    ensures var z := Compressed(codec, page);
            SplitFrame(Frame(codec, page) + rest)
            == Ok(Raw(page[0].ts, EndOf(page), |page|, z, codec.crc(z), |Frame(codec, page)|))
  {
    hide LE, LETs, LEVal, TsVal, PutUvarint, Uvarint, HeaderBytes, Compressed;
    var z := Compressed(codec, page);
    var h, u, c := HeaderBytes(page[0].ts, EndOf(page), |page|), PutUvarint(|z|), LE(codec.crc(z), 4);
    CutParts(h, u, z, c, rest);
    UvarintRoundTrip(|z|, z + c + rest);
    HeaderFields(page[0].ts, EndOf(page), |page|, h + u + z + c + rest);
    PowWidths();
    LERoundTrip(codec.crc(z), 4);
  }

  /** A frame decodes to the page it was written for, whatever follows it. */
  lemma FrameRoundTrip(codec: Codec, page: Page, rest: bytes)
    requires codec.Lossless() && Writable(codec, page)
    ensures DecodeFrame(codec, Frame(codec, page) + rest) == Ok((StoredOf(page), |Frame(codec, page)|))
  {
    SplitRoundTrip(codec, page, rest);
    ColumnsRoundTrip(page);
    hide Frame, SplitFrame, Payload, Columns;
  }

  /** A page whose count does not fit gives a frame that never decodes, whatever follows it. */
  lemma WideFrameFails(codec: Codec, page: Page, rest: bytes)
    requires codec.Lossless() && !Narrow(page)
    ensures DecodeFrame(codec, Frame(codec, page) + rest).Err?
  {
    hide LE, LETs, LEVal, TsVal, PutUvarint, Uvarint, HeaderBytes, Columns;
    var z := Compressed(codec, page);
    var n := |page| % TWO_16;
    var h, u, c := HeaderBytes(page[0].ts, EndOf(page), |page|), PutUvarint(|z|), LE(codec.crc(z), 4);
    var b := Frame(codec, page) + rest;
    CutParts(h, u, z, c, rest);
    if |z| < TWO_64 {
      UvarintRoundTrip(|z|, z + c + rest);
    } else {
      UvarintOver(|z|, z + c + rest);
    }
    SameHeader(page[0].ts, EndOf(page), |page|);
    HeaderFields(page[0].ts, EndOf(page), n, h + u + z + c + rest);
    PowWidths();
    LERoundTrip(codec.crc(z), 4);
    PayloadLength(page);
    assert SplitFrame(b).Ok? ==> SplitFrame(b).value.count == n && SplitFrame(b).value.z == z;
  }

  lemma SameHeader(start: Timestamp, end: Timestamp, n: nat)
    ensures HeaderBytes(start, end, n) == HeaderBytes(start, end, n % TWO_16)
  {
  }

  /** What a frame decodes to depends only on its own bytes. */
  lemma DecodeLocal(codec: Codec, b: bytes, c: bytes)
    requires DecodeFrame(codec, b).Ok?
    requires DecodeFrame(codec, b).value.1 <= |c|
    requires c[..DecodeFrame(codec, b).value.1] == b[..DecodeFrame(codec, b).value.1]
    ensures DecodeFrame(codec, c) == DecodeFrame(codec, b)
  {
    hide Unpack;
    SplitLocal(b, c);
  }

  lemma SplitLocal(b: bytes, c: bytes)
    requires SplitFrame(b).Ok?
    requires SplitFrame(b).value.used <= |c| && c[..SplitFrame(b).value.used] == b[..SplitFrame(b).value.used]
    ensures SplitFrame(c) == SplitFrame(b)
  {
    hide Uvarint, LEVal, TsVal;
    var k := SplitFrame(b).value.used;
    var b', c' := b[HEADER_SIZE..], c[HEADER_SIZE..];
    var n := Uvarint(b').value.1;
    assert b'[..n] == b[..k][HEADER_SIZE..HEADER_SIZE + n] == c[..k][HEADER_SIZE..HEADER_SIZE + n] == c'[..n];
    UvarintLocal(b', c');
    var len := Uvarint(b').value.0;
    SubSame(b, c, k, 0, 8);
    SubSame(b, c, k, 8, 8);
    SubSame(b, c, k, 16, 2);
    SubSame(b, c, k, HEADER_SIZE + n, len);
    SubSame(b, c, k, HEADER_SIZE + n + len, 4);
  }

  lemma SubSame(b: bytes, c: bytes, k: nat, off: nat, n: nat)
    requires k <= |b| && k <= |c| && b[..k] == c[..k] && off + n <= k
    ensures Sub(b, off, n) == Sub(c, off, n)
  {
    assert Sub(b, off, n) == b[..k][off..off + n];
    assert Sub(c, off, n) == c[..k][off..off + n];
  }
}
