/**
 The in-memory page of one (database, partition) events stream, and its on-disk frame.

 A page is determined by its records in arrival order: the functions below say what its time bounds, its
 event-id bitmap and its size are; class EventsPages.EventsPage keeps them up to date in place.
 */
module EventsFrames {
  import opened Prelude
  import opened Bytes
  import opened Names
  import opened Frames
  import opened Codec
  import opened EventsCatalog
  import opened EventsWal

  const BITMAP_BYTES: int := 128
  const BITMAP_BITS: int := 1024
  const FRAME_HEADER_BYTES: int := 152

  const DEFAULT_MAX_RECORDS: int := 1000
  const DEFAULT_MAX_BYTES: int := 64 * 1024

  // ---------------------------------------------------------------- what a page's records determine

  function MinTs(rs: seq<Record>): (t: Timestamp)
    requires rs != []
  {
    var last := rs[|rs| - 1];
    if |rs| == 1 then last.ts
    else
      var m := MinTs(rs[..|rs| - 1]);
      if last.ts < m then last.ts else m
  }

  function MaxTs(rs: seq<Record>): (t: Timestamp)
    requires rs != []
  {
    var last := rs[|rs| - 1];
    if |rs| == 1 then last.ts
    else
      var m := MaxTs(rs[..|rs| - 1]);
      if last.ts > m then last.ts else m
  }

  /** The page bounds enclose every record, and both are reached. */
  lemma {:induction false} BoundsAreTight(rs: seq<Record>)
    requires rs != []
    ensures forall r :: r in rs ==> MinTs(rs) <= r.ts <= MaxTs(rs)
    ensures exists r :: r in rs && r.ts == MinTs(rs)
    ensures exists r :: r in rs && r.ts == MaxTs(rs)
  {
    var init, last := rs[..|rs| - 1], rs[|rs| - 1];
    assert rs == init + [last];
    assert last in rs;
    if init != [] {
      BoundsAreTight(init);
      var lo :| lo in init && lo.ts == MinTs(init);
      var hi :| hi in init && hi.ts == MaxTs(init);
      assert lo in rs && hi in rs;
    }
  }

  /** The presence bitmap: one bit per event id. */
  type Bitmap = b: seq<bool> | |b| == BITMAP_BITS witness seq(BITMAP_BITS, _ => false)

  function NoBits(): Bitmap {
    seq(BITMAP_BITS, _ => false)
  }

  function BitsOf(rs: seq<Record>): (b: Bitmap) {
    if rs == [] then NoBits()
    else
      var b := BitsOf(rs[..|rs| - 1]);
      var id := rs[|rs| - 1].id;
      if id < BITMAP_BITS then b[id := true] else b
  }

  /** A page's bitmap has the bit of an id set exactly when a record of the page has that id. */
  lemma {:induction false} BitmapIsExact(rs: seq<Record>, id: nat)
    requires id < BITMAP_BITS
    ensures BitsOf(rs)[id] <==> exists r :: r in rs && r.id == id
  {
    if rs != [] {
      var init, last := rs[..|rs| - 1], rs[|rs| - 1];
      BitmapIsExact(init, id);
      assert rs == init + [last];
      assert forall r :: r in rs <==> r in init || r == last;
    }
  }

  function PayloadBytes(rs: seq<Record>): nat {
    if rs == [] then 0 else PayloadBytes(rs[..|rs| - 1]) + |rs[|rs| - 1].payload|
  }

  /** SizeBytes. */
  function SizeOf(rs: seq<Record>): nat {
    |rs| * 15 + PayloadBytes(rs)
  }

  // ---------------------------------------------------------------- limits

  datatype Limits = Limits(maxRecords: int, maxBytes: int, maxInMemoryBytes: int) {
    function Records(): int { if maxRecords <= 0 then DEFAULT_MAX_RECORDS else maxRecords }
    function Bytes(): int { if maxBytes <= 0 then DEFAULT_MAX_BYTES else maxBytes }
  }

  /** IsFull; `aged` is the answer of the clock. */
  predicate Full(rs: seq<Record>, lim: Limits, aged: bool) {
    |rs| >= lim.Records() || SizeOf(rs) >= lim.Bytes() || aged
  }

  predicate MustForceFlush(rs: seq<Record>, lim: Limits) {
    lim.maxInMemoryBytes > 0 && SizeOf(rs) >= lim.maxInMemoryBytes
  }

  // ---------------------------------------------------------------- frame encoding

  function PackBits(b: seq<bool>): (n: nat)
    ensures n < Pow2(|b|)
  {
    if b == [] then 0 else (if b[0] then 1 else 0) + 2 * PackBits(b[1..])
  }

  function Pow2(k: nat): (p: nat)
    ensures p >= 1
  {
    if k == 0 then 1 else 2 * Pow2(k - 1)
  }

  function UnpackBits(n: nat, k: nat): (b: seq<bool>)
    ensures |b| == k
  {
    if k == 0 then [] else [n % 2 == 1] + UnpackBits(n / 2, k - 1)
  }

  lemma {:induction false} BitsRoundTrip(b: seq<bool>)
    ensures UnpackBits(PackBits(b), |b|) == b
  {
    if b != [] {
      BitsRoundTrip(b[1..]);
      assert PackBits(b) / 2 == PackBits(b[1..]);
    }
  }

  function PackBytes(b: seq<bool>): (r: bytes)
    requires |b| % 8 == 0
    ensures |r| == |b| / 8
    decreases |b|
  {
    if b == [] then []
    else
      assert Pow2(8) == 256 by {
        assert Pow2(2) == 4 && Pow2(4) == 16 && Pow2(6) == 64;
      }
      [PackBits(b[..8])] + PackBytes(b[8..])
  }

  function UnpackBytes(r: bytes): (b: seq<bool>)
    ensures |b| == 8 * |r|
  {
    if r == [] then [] else UnpackBits(r[0], 8) + UnpackBytes(r[1..])
  }

  lemma {:induction false} BitmapRoundTrip(b: seq<bool>)
    requires |b| % 8 == 0
    ensures UnpackBytes(PackBytes(b)) == b
    decreases |b|
  {
    if b != [] {
      BitsRoundTrip(b[..8]);
      BitmapRoundTrip(b[8..]);
      var head := PackBits(b[..8]);
      assert PackBytes(b) == [PackBytes(b)[0]] + PackBytes(b[8..]);
      assert PackBytes(b)[1..] == PackBytes(b[8..]);
    }
  }

  function RecordBytes(r: Record): (b: bytes)
    ensures |b| >= 11
  {
    LE(r.id, 2) + LETs(r.ts) + (ValuePart(r) + PayloadPart(r))
  }

  datatype Header = Header(start: Timestamp, end: Timestamp, count: nat, bits: Bitmap, compressedLen: nat)

  function HeaderBytes(h: Header): (b: bytes)
    ensures |b| == FRAME_HEADER_BYTES
  {
    LETs(h.start) + LETs(h.end) + LE(h.count, 4) + PackBytes(h.bits) + LE(h.compressedLen, 4)
  }

  function HeaderOf(rs: seq<Record>, compressedLen: nat): Header
    requires rs != []
  {
    Header(MinTs(rs), MaxTs(rs), |rs|, BitsOf(rs), compressedLen)
  }

  function Compressed(codec: Codec, rs: seq<Record>): bytes {
    codec.compress(Concat(RecordBytes, rs))
  }

  /** The frame EncodeInto writes for a page. */
  function Frame(codec: Codec, rs: seq<Record>): (b: bytes)
    requires rs != []
    ensures |b| == FRAME_HEADER_BYTES + |Compressed(codec, rs)| + 4
  {
    var z := Compressed(codec, rs);
    HeaderBytes(HeaderOf(rs, |z|)) + z + LE(codec.crc(z), 4)
  }

  /** The page can be written: at least one record, fewer than 2^32, and within the frame cap. */
  ghost predicate Writable(codec: Codec, rs: seq<Record>) {
    rs != [] && |rs| < TWO_32 && |Compressed(codec, rs)| <= MAX_FRAME_PAYLOAD
  }

  // ---------------------------------------------------------------- frame decoding

  datatype PageError =
    | EmptyPage
    | FrameTooLarge
    | LengthMismatch
    | CrcMismatch
    | BadCompression
    | TruncatedRecord
    | UnknownId
    | TruncatedRecordValue
    | MalformedLength
    | TruncatedRecordPayload
    | TrailingPageBytes
    | RecordPanic

  function DecodeHeader(b: bytes): (h: Header)
    requires |b| == FRAME_HEADER_BYTES
  {
    Header(TsVal(Sub(b, 0, 8)), TsVal(Sub(b, 8, 8)), LEVal(Sub(b, 16, 4)), UnpackBytes(Sub(b, 20, BITMAP_BYTES)),
           LEVal(Sub(b, 148, 4)))
  }

  lemma HeaderRoundTrip(h: Header)
    requires h.count < TWO_32 && h.compressedLen < TWO_32
    ensures DecodeHeader(HeaderBytes(h)) == h
  {
    hide LE, LETs, LEVal, TsVal, PackBytes, UnpackBytes;
    var s, e, n, m, z := LETs(h.start), LETs(h.end), LE(h.count, 4), PackBytes(h.bits), LE(h.compressedLen, 4);
    var b := HeaderBytes(h);
    assert Sub(b, 0, 8) == s;
    assert Sub(b, 8, 8) == e;
    assert Sub(b, 16, 4) == n;
    assert Sub(b, 20, BITMAP_BYTES) == m;
    assert Sub(b, 148, 4) == z;
    TsRoundTrip(h.start);
    TsRoundTrip(h.end);
    PowWidths();
    LERoundTrip(h.count, 4);
    LERoundTrip(h.compressedLen, 4);
    BitmapRoundTrip(h.bits);
  }

  /** The value and payload of one page record, from position pos of b. */
  function DecodeRecordTail(b: bytes, pos: nat, vt: byte): (r: Step<(), (nat, bytes), PageError>)
    requires pos <= |b|
    ensures r.More? ==> pos < r.used <= |b|
  {
    if vt != VALUE_NONE && pos + 4 > |b| then Fail(TruncatedRecordValue)
    else
      var raw := if vt == VALUE_NONE then 0 else LEVal(Sub(b, pos, 4));
      var at := if vt == VALUE_NONE then pos else pos + 4;
      match Uvarint(b[at..])
      case None => Fail(MalformedLength)
      case Some((len, n)) =>
        var start := at + n;
        if start + len >= TWO_63 then Fail(RecordPanic)
        else if start + len > |b| then Fail(TruncatedRecordPayload)
        else More((raw, Sub(b, start, len)), (), start + len)
  }

  /** One turn of the DecodeFromFrame loop; the registry supplies the type the record omits. */
  function RecordStep(b: bytes, cat: Catalog): (r: Step<Catalog, Record, PageError>)
    ensures r.More? ==> 0 < r.used <= |b|
  {
    if 10 > |b| then Fail(TruncatedRecord)
    else
      var id := LEVal(Sub(b, 0, 2));
      var ts := TsVal(Sub(b, 2, 8));
      match TypeOf(cat, id)
      case None => Fail(UnknownId)
      case Some(vt) =>
        match DecodeRecordTail(b, 10, vt)
        case Stop => Stop
        case Fail(e) => Fail(e)
        case More((raw, payload), _, used) => More(Record(id, ts, vt, raw, payload), cat, used)
  }

  function DecodeRecords(payload: bytes, n: nat, cat: Catalog): (r: Result<seq<Record>, PageError>) {
    match ReadCount(RecordStep, payload, n, cat)
    case Failed(e) => Err(e)
    case Scanned(rs, _, used) => if used != |payload| then Err(TrailingPageBytes) else Ok(rs)
  }

  /** DecodeFromFrame: the records of a frame whose header and trailer are already read. */
  function DecodePage(codec: Codec, h: Header, z: bytes, crc: nat, cat: Catalog): (r: Result<seq<Record>, PageError>) {
    if h.compressedLen != |z| % TWO_32 then Err(LengthMismatch)
    else if codec.crc(z) != crc then Err(CrcMismatch)
    else
      match codec.decompress(z)
      case None => Err(BadCompression)
      case Some(payload) => DecodeRecords(payload, h.count, cat)
  }

  // ---------------------------------------------------------------- decoding inverts encoding

  /** Every record's id is pinned in cat to the record's type. */
  ghost predicate Typed(cat: Catalog, rs: seq<Record>) {
    forall r :: r in rs ==> ValidRecord(r) && TypeOf(cat, r.id) == Some(r.valueType)
  }

  lemma RecordTailRoundTrip(pre: bytes, r: Record, rest: bytes)
    requires ValidRecord(r) && |pre| == 10
    ensures DecodeRecordTail(pre + (ValuePart(r) + PayloadPart(r)) + rest, 10, r.valueType)
            == More((r.raw, r.payload), (), 10 + |ValuePart(r)| + |PayloadPart(r)|)
  {
    hide LE, PutUvarint, Uvarint;
    var v, u := ValuePart(r), PutUvarint(|r.payload|);
    CutTail(pre, v, u, r.payload, rest);
    if r.valueType != VALUE_NONE {
      PowWidths();
      LERoundTrip(r.raw, 4);
    }
    UvarintRoundTrip(|r.payload|, r.payload + rest);
    UvarintShort(|r.payload|);
  }

  lemma RecordRoundTrip(cat: Catalog, r: Record, rest: bytes)
    requires ValidRecord(r) && TypeOf(cat, r.id) == Some(r.valueType)
    ensures RecordStep(RecordBytes(r) + rest, cat) == More(r, cat, |RecordBytes(r)|)
  {
    hide LE, LETs, LEVal, TsVal, ValuePart, PayloadPart, DecodeRecordTail;
    var i, t := LE(r.id, 2), LETs(r.ts);
    var b := RecordBytes(r) + rest;
    assert Sub(b, 0, 2) == i;
    assert Sub(b, 2, 8) == t;
    PowWidths();
    LERoundTrip(r.id, 2);
    TsRoundTrip(r.ts);
    RecordTailRoundTrip(i + t, r, rest);
  }

  lemma RecordsReadWhole(cat: Catalog, r: Record)
    requires ValidRecord(r) && TypeOf(cat, r.id) == Some(r.valueType)
    ensures ReadsWhole(RecordBytes, RecordStep, r, cat, r, cat)
  {
    forall rest: bytes ensures RecordStep(RecordBytes(r) + rest, cat) == More(r, cat, |RecordBytes(r)|) {
      RecordRoundTrip(cat, r, rest);
    }
  }

  lemma RecordsRoundTrip(cat: Catalog, rs: seq<Record>)
    requires Typed(cat, rs)
    ensures DecodeRecords(Concat(RecordBytes, rs), |rs|, cat) == Ok(rs)
  {
    var ss := seq(|rs| + 1, _ => cat);
    forall i | 0 <= i < |rs| ensures ReadsWhole(RecordBytes, RecordStep, rs[i], ss[i], rs[i], ss[i + 1]) {
      assert rs[i] in rs;
      RecordsReadWhole(cat, rs[i]);
    }
    assert AllRead(RecordBytes, RecordStep, rs, ss, rs);
    ReadCountOfFrames(RecordBytes, RecordStep, rs, ss, rs, []);
    assert Concat(RecordBytes, rs) + [] == Concat(RecordBytes, rs);
  }

  /** Decoding a frame with the pinned types gives the page's records back, in order. */
  lemma PageRoundTrip(codec: Codec, cat: Catalog, rs: seq<Record>)
    requires codec.Lossless() && Typed(cat, rs) && Writable(codec, rs)
    ensures var z := Compressed(codec, rs);
            DecodePage(codec, HeaderOf(rs, |z|), z, codec.crc(z), cat) == Ok(rs)
  {
    RecordsRoundTrip(cat, rs);
  }
}
