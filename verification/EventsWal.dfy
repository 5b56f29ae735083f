/**
 The events write-ahead log: its byte format, the scan that reads it back, and the log file itself.
 */
module EventsWal {
  import opened Prelude
  import opened Bytes
  import opened Names
  import opened Frames
  import opened EventsCatalog

  /** One event occurrence as storage sees it. The value is a raw 32-bit word; payload bytes are opaque. */
  datatype Record = Record(id: nat, ts: Timestamp, valueType: byte, raw: nat, payload: bytes)

  /** A log record: the occurrence, and the event's name when this is the name's first occurrence. */
  datatype WalRecord = WalRecord(name: Name, rec: Record)

  /** A scanned record with its name resolved. */
  datatype Decoded = Decoded(name: Name, rec: Record)

  datatype WalError =
    | PayloadTooShort
    | ReservedFlagSet
    | TruncatedName
    | InvalidInlineType
    | CatalogConflict(cause: CatalogError)
    | UnknownEventId
    | TruncatedValue
    | MalformedPayloadLength
    | TruncatedPayload
    | TrailingBytes
    | SliceBoundsPanic   // a payload length that overflows int once added to the position

  const NEW_EVENT: byte := 0x80

  ghost predicate ValidRecord(r: Record) {
    && 1 <= r.id <= MAX_EVENTS
    && ValidType(r.valueType)
    && r.raw < TWO_32
    && (r.valueType == VALUE_NONE ==> r.raw == 0)
    && |r.payload| <= MAX_SLICE
  }

  // ---------------------------------------------------------------- encoding

  /** The length byte wraps past 255, which appendEventRecord rules out beforehand. */
  function NamePart(w: WalRecord): bytes {
    if w.name == [] then [] else [|w.name| % 256] + w.name + [w.rec.valueType]
  }

  function ValuePart(r: Record): bytes {
    if r.valueType == VALUE_NONE then [] else LE(r.raw, 4)
  }

  function PayloadPart(r: Record): bytes {
    PutUvarint(|r.payload|) + r.payload
  }

  function FlagsOf(w: WalRecord): byte {
    if w.name == [] then 0 else NEW_EVENT
  }

  /** What follows the outer length prefix. */
  function Body(w: WalRecord): (b: bytes)
    ensures |b| >= 12
  {
    LE(w.rec.id, 2) + LETs(w.rec.ts) + [FlagsOf(w)] + NamePart(w) + (ValuePart(w.rec) + PayloadPart(w.rec))
  }

  function Encode(w: WalRecord): (b: bytes)
    ensures |b| > 12
  {
    PutUvarint(|Body(w)|) + Body(w)
  }

  /** The bytes of a log holding ws. */
  function EncodeAll(ws: seq<WalRecord>): bytes {
    Concat(Encode, ws)
  }

  // ---------------------------------------------------------------- decoding

  /** The value and payload that end a record, from position pos of its body. */
  function DecodeTail(p: bytes, pos: nat, vt: byte): (r: Result<(nat, bytes), WalError>)
    requires pos <= |p|
  {
    if vt != VALUE_NONE && pos + 4 > |p| then Err(TruncatedValue)
    else
      var raw := if vt == VALUE_NONE then 0 else LEVal(Sub(p, pos, 4));
      var at := if vt == VALUE_NONE then pos else pos + 4;
      match Uvarint(p[at..])
      case None => Err(MalformedPayloadLength)
      case Some((len, n)) =>
        var start := at + n;
        if start + len >= TWO_63 then Err(SliceBoundsPanic)
        else if start + len > |p| then Err(TruncatedPayload)
        else if start + len != |p| then Err(TrailingBytes)
        else Ok((raw, Sub(p, start, len)))
  }

  function FinishDecode(p: bytes, pos: nat, id: nat, ts: Timestamp, name: Name, vt: byte, c: Catalog)
    : (r: Result<(Decoded, Catalog), WalError>)
    requires pos <= |p|
  {
    match DecodeTail(p, pos, vt)
    case Err(e) => Err(e)
    case Ok((raw, payload)) => Ok((Decoded(name, Record(id, ts, vt, raw, payload)), c))
  }

  /** The part of a newEvent record after its flags: inline name and type, checked against the registry. */
  function DecodeNew(p: bytes, id: nat, ts: Timestamp, c: Catalog): (r: Result<(Decoded, Catalog), WalError>)
    requires |p| >= 12
  {
    var nameLen := p[11];
    if 12 + nameLen + 1 > |p| then Err(TruncatedName)
    else
      var name := Sub(p, 12, nameLen);
      var vt := p[12 + nameLen];
      if !ValidType(vt) then Err(InvalidInlineType)
      else
        match Ensure(c, name, id, vt)
        case Err(e) => Err(CatalogConflict(e))
        case Ok(d) => FinishDecode(p, 13 + nameLen, id, ts, name, vt, d)
  }

  function DecodeKnown(p: bytes, id: nat, ts: Timestamp, c: Catalog): (r: Result<(Decoded, Catalog), WalError>)
    requires |p| >= 12
  {
    if TypeOf(c, id).None? then Err(UnknownEventId)
    else FinishDecode(p, 11, id, ts, c.names[id], TypeOf(c, id).value, c)
  }

  /** decodeEventsWALPayload. */
  function DecodeBody(p: bytes, c: Catalog): (r: Result<(Decoded, Catalog), WalError>) {
    if |p| < 12 then Err(PayloadTooShort)
    else
      var id := LEVal(Sub(p, 0, 2));
      var ts := TsVal(Sub(p, 2, 8));
      if p[10] % NEW_EVENT != 0 then Err(ReservedFlagSet)
      else if p[10] >= NEW_EVENT then DecodeNew(p, id, ts, c)
      else DecodeKnown(p, id, ts, c)
  }

  /** The length prefix and body at the head of b; None is the crash tail. */
  function NextBody(b: bytes): (r: Option<(bytes, nat)>)
    ensures r.Some? ==> 0 < r.value.1 <= |b|
  {
    match Uvarint(b)
    case None => None
    case Some((len, n)) => if len > |b| - n then None else Some((b[n..n + len], n + len))
  }

  /** One turn of the RecordsWithCatalog loop. */
  function WalStep(b: bytes, c: Catalog): (r: Step<Catalog, Decoded, WalError>) {
    match NextBody(b)
    case None => Stop
    case Some((body, used)) =>
      match DecodeBody(body, c)
      case Err(e) => Fail(e)
      case Ok((d, c')) => More(d, c', used)
  }

  /** One turn of the scanEventsWALAppendStats loop, which does not look inside records. */
  function StatStep(b: bytes, s: ()): (r: Step<(), (), ()>) {
    match NextBody(b)
    case None => Stop
    case Some((_, used)) => More((), (), used)
  }

  /** RecordsWithCatalog: every whole record of a log, in order, and the registry they leave. */
  function Scan(b: bytes, c: Catalog): (r: Scanned<Catalog, Decoded, WalError>) {
    ScanWith(WalStep, b, c)
  }

  /** scanEventsWALAppendStats: how many whole records, and the bytes they take. */
  function Stats(b: bytes): (r: Scanned<(), (), ()>) {
    ScanWith(StatStep, b, ())
  }

  // ---------------------------------------------------------------- what a log means

  /**
   w is what ingest may append when the registry is c: a known id without a name, or a name with its id.
   A name already pinned occurs when events.json was saved after the record was logged.
   */
  ghost predicate Fits(c: Catalog, w: WalRecord) {
    && ValidRecord(w.rec)
    && if w.name == [] then TypeOf(c, w.rec.id) == Some(w.rec.valueType)
       else
         && ValidName(w.name)
         && if w.name in c.events
            then c.events[w.name].id == w.rec.id && c.events[w.name].valueType == w.rec.valueType
            else |c.events| < MAX_EVENTS && w.rec.id == |c.events| + 1
  }

  /** The registry after replaying w. */
  ghost function Register(c: Catalog, w: WalRecord): Catalog {
    if w.name == [] || w.name in c.events then c
    else Catalog(c.events[w.name := Entry(w.rec.id, w.rec.valueType, None)], c.names[w.rec.id := w.name], true)
  }

  ghost function Replay(c: Catalog, ws: seq<WalRecord>): Catalog {
    if ws == [] then c else Register(Replay(c, ws[..|ws| - 1]), ws[|ws| - 1])
  }

  /** ws could have been written by ingest starting from registry c. */
  ghost predicate LogOrder(c: Catalog, ws: seq<WalRecord>) {
    ws != [] ==> LogOrder(c, ws[..|ws| - 1]) && Fits(Replay(c, ws[..|ws| - 1]), ws[|ws| - 1])
  }

  lemma ReplaySnoc(c: Catalog, ws: seq<WalRecord>, w: WalRecord)
    ensures Replay(c, ws + [w]) == Register(Replay(c, ws), w)
    ensures LogOrder(c, ws + [w]) <==> LogOrder(c, ws) && Fits(Replay(c, ws), w)
  {
    assert (ws + [w])[..|ws|] == ws;
  }

  lemma {:induction false} PrefixInOrder(c: Catalog, ws: seq<WalRecord>, m: nat)
    requires LogOrder(c, ws) && m < |ws|
    ensures LogOrder(c, ws[..m]) && Fits(Replay(c, ws[..m]), ws[m])
    decreases |ws|
  {
    var init := ws[..|ws| - 1];
    if m < |init| {
      assert init[..m] == ws[..m];
      PrefixInOrder(c, init, m);
    }
  }

  lemma {:induction false} ReplayAppend(c: Catalog, ws: seq<WalRecord>, vs: seq<WalRecord>)
    ensures Replay(c, ws + vs) == Replay(Replay(c, ws), vs)
    decreases |vs|
  {
    if vs == [] {
      assert ws + vs == ws;
    } else {
      var init, last := vs[..|vs| - 1], vs[|vs| - 1];
      assert ws + vs == (ws + init) + [last];
      ReplaySnoc(c, ws + init, last);
      ReplayAppend(c, ws, init);
    }
  }

  lemma RegisterKeepsDense(c: Catalog, w: WalRecord)
    requires Dense(c) && Fits(c, w)
    ensures Dense(Register(c, w)) && Extends(c, Register(c, w))
    ensures TypeOf(Register(c, w), w.rec.id) == Some(w.rec.valueType)
    ensures w.name != [] ==> w.name in Register(c, w).events
  {
    if w.name != [] && w.name !in c.events {
      PinNext(c, w.name, w.rec.valueType);
    }
  }

  /** Replay of a log keeps ids exactly 1..n and never moves a pin. */
  lemma {:induction false} ReplayKeepsDense(c: Catalog, ws: seq<WalRecord>)
    requires Dense(c) && LogOrder(c, ws)
    ensures Dense(Replay(c, ws)) && Extends(c, Replay(c, ws))
  {
    if ws != [] {
      var init, last := ws[..|ws| - 1], ws[|ws| - 1];
      ReplayKeepsDense(c, init);
      RegisterKeepsDense(Replay(c, init), last);
      ExtendsTransitive(c, Replay(c, init), Replay(c, ws));
    }
  }

  lemma RegisterKeepsTypes(c: Catalog, w: WalRecord, id: nat, vt: byte)
    requires Dense(c) && Fits(c, w)
    requires TypeOf(c, id) == Some(vt) || (id == w.rec.id && vt == w.rec.valueType)
    ensures TypeOf(Register(c, w), id) == Some(vt)
  {
    RegisterKeepsDense(c, w);
  }

  /** Every id a log uses is known, with its type, once the log is replayed. */
  lemma {:induction false} ReplayKnowsIds(c: Catalog, ws: seq<WalRecord>, i: nat)
    requires Dense(c) && LogOrder(c, ws) && i < |ws|
    ensures TypeOf(Replay(c, ws), ws[i].rec.id) == Some(ws[i].rec.valueType)
    decreases |ws|
  {
    hide Dense, Fits, Register, TypeOf;
    var init := ws[..|ws| - 1];
    if i < |init| {
      ReplayKnowsIds(c, init, i);
    }
    ReplayKeepsDense(c, init);
    RegisterKeepsTypes(Replay(c, init), ws[|ws| - 1], ws[i].rec.id, ws[i].rec.valueType);
  }

  lemma DenseTypeOf(c: Catalog, d: Catalog, id: nat)
    requires Dense(c) && Extends(c, d) && TypeOf(c, id).Some?
    ensures TypeOf(d, id) == TypeOf(c, id)
  {
  }

  /**
   Saving the registry in mid-log is harmless: from any later registry the same log is still in order,
   and replaying it changes nothing.
   */
  lemma {:induction false} ReplayFromLaterSnapshot(c: Catalog, ws: seq<WalRecord>, d: Catalog)
    requires Dense(c) && LogOrder(c, ws) && Dense(d) && Extends(Replay(c, ws), d)
    ensures LogOrder(d, ws) && Replay(d, ws) == d
  {
    if ws != [] {
      var init, last := ws[..|ws| - 1], ws[|ws| - 1];
      var mid := Replay(c, init);
      ReplayKeepsDense(c, init);
      RegisterKeepsDense(mid, last);
      ExtendsTransitive(mid, Replay(c, ws), d);
      ReplayFromLaterSnapshot(c, init, d);
      if last.name == [] {
        DenseTypeOf(mid, d, last.rec.id);
      }
    }
  }

  // ---------------------------------------------------------------- round trips

  lemma TailRoundTrip(pre: bytes, r: Record)
    requires ValidRecord(r) && |pre| <= 1024
    ensures DecodeTail(pre + (ValuePart(r) + PayloadPart(r)), |pre|, r.valueType) == Ok((r.raw, r.payload))
  {
    hide LE, LEVal, PutUvarint, Uvarint, Pow256;
    TailFields(pre, r);
    if r.valueType != VALUE_NONE {
      PowWidths();
      LERoundTrip(r.raw, 4);
    }
    hide ValuePart, Sub;
    UvarintRoundTrip(|r.payload|, r.payload);
    UvarintShort(|r.payload|);
  }

  lemma TailFields(pre: bytes, r: Record)
    requires ValidRecord(r)
    ensures var v, u := ValuePart(r), PutUvarint(|r.payload|);
            var p := pre + (v + PayloadPart(r));
            && |p| == |pre| + |v| + |u| + |r.payload|
            && |v| == (if r.valueType == VALUE_NONE then 0 else 4) && Sub(p, |pre|, |v|) == v
            && p[|pre| + |v|..] == u + r.payload && Sub(p, |pre| + |v| + |u|, |r.payload|) == r.payload
  {
    hide LE, PutUvarint;
    var v, u := ValuePart(r), PutUvarint(|r.payload|);
    var p := pre + (v + PayloadPart(r));
    assert p + [] == p;
    CutTail(pre, v, u, r.payload, []);
    assert r.payload + [] == r.payload;
  }

  lemma {:induction false} UvarintLength(x: nat, seen: nat)
    requires seen <= 9 && x < Room(seen)
    ensures |PutUvarint(x)| <= 10 - seen
    decreases x
  {
    if x >= 128 {
      assert seen < 9;
      assert Room(seen) == 128 * Room(seen + 1);
      UvarintLength(x / 128, seen + 1);
    }
  }

  lemma UvarintShort(x: nat)
    requires x < TWO_64
    ensures |PutUvarint(x)| <= 10
  {
    RoomIs64Bits();
    UvarintLength(x, 0);
  }

  ghost function Head(w: WalRecord): bytes {
    LE(w.rec.id, 2) + LETs(w.rec.ts) + [FlagsOf(w)] + NamePart(w)
  }

  lemma HeadFields(w: WalRecord, rest: bytes)
    requires |w.name| <= MAX_NAME_LEN && ValidRecord(w.rec)
    ensures var p := Head(w) + rest;
            |Head(w)| >= 11 && LEVal(Sub(p, 0, 2)) == w.rec.id && TsVal(Sub(p, 2, 8)) == w.rec.ts && p[10] == FlagsOf(w)
            && p[11..] == NamePart(w) + rest
  {
    hide LE, LETs, LEVal, TsVal;
    CutHead(LE(w.rec.id, 2), LETs(w.rec.ts), [FlagsOf(w)], NamePart(w), rest);
    PowWidths();
    LERoundTrip(w.rec.id, 2);
    TsRoundTrip(w.rec.ts);
  }

  lemma EnsureIsRegister(w: WalRecord, c: Catalog)
    requires Dense(c) && Fits(c, w) && w.name != []
    ensures Ensure(c, w.name, w.rec.id, w.rec.valueType) == Ok(Register(c, w))
  {
    if w.name in c.events {
      EnsurePinned(c, w.name, w.rec.id, w.rec.valueType);
    }
  }

  lemma NewFields(w: WalRecord, rest: bytes)
    requires w.name != [] && |w.name| <= MAX_NAME_LEN && ValidRecord(w.rec)
    ensures var p := Head(w) + rest;
            |Head(w)| == 13 + |w.name| && p[11] == |w.name| && Sub(p, 12, |w.name|) == w.name
            && p[12 + |w.name|] == w.rec.valueType
  {
    hide LE, LETs;
    var p := Head(w) + rest;
    HeadFields(w, rest);
    var n := NamePart(w);
    assert p[11..][0] == n[0] && p[11..][1 + |w.name|] == n[1 + |w.name|];
    assert p[11..][1..1 + |w.name|] == w.name;
  }

  /** Decoding a record against a registry it fits gives the record back, and registers its name. */
  lemma BodyRoundTrip(w: WalRecord, c: Catalog)
    requires Dense(c) && Fits(c, w)
    ensures var d := Register(c, w);
            w.rec.id in d.names && DecodeBody(Body(w), c) == Ok((Decoded(d.names[w.rec.id], w.rec), d))
  {
    var h, t := Head(w), ValuePart(w.rec) + PayloadPart(w.rec);
    assert Body(w) == h + t;
    HeadFields(w, t);
    TailRoundTrip(h, w.rec);
    RegisterKeepsDense(c, w);
    if w.name != [] {
      NewFields(w, t);
      EnsureIsRegister(w, c);
    }
  }

  lemma NextBodyWhole(w: WalRecord, rest: bytes)
    requires |w.name| <= MAX_NAME_LEN && ValidRecord(w.rec)
    ensures NextBody(Encode(w) + rest) == Some((Body(w), |Encode(w)|))
  {
    var u, p := PutUvarint(|Body(w)|), Body(w);
    UvarintShort(|w.rec.payload|);
    assert Encode(w) + rest == u + (p + rest);
    UvarintRoundTrip(|p|, p + rest);
    assert (u + (p + rest))[|u|..|u| + |p|] == p;
  }

  /** A record cut short reads as the crash tail. */
  lemma NextBodyTorn(w: WalRecord, k: nat)
    requires |w.name| <= MAX_NAME_LEN && ValidRecord(w.rec) && k < |Encode(w)|
    ensures NextBody(Encode(w)[..k]) == None
  {
    var u, p := PutUvarint(|Body(w)|), Body(w);
    UvarintShort(|w.rec.payload|);
    var b := Encode(w)[..k];
    if k < |u| {
      assert b == u[..k];
      UvarintTruncated(|p|, k);
    } else {
      assert b == u + p[..k - |u|];
      UvarintRoundTrip(|p|, p[..k - |u|]);
    }
  }

  lemma WalReads(w: WalRecord, c: Catalog)
    requires Dense(c) && Fits(c, w)
    ensures w.rec.id in Register(c, w).names
    ensures Reads(Encode, WalStep, w, c, Decoded(Register(c, w).names[w.rec.id], w.rec), Register(c, w))
    ensures Reads(Encode, StatStep, w, (), (), ())
  {
    BodyRoundTrip(w, c);
    var d := Register(c, w);
    forall rest: bytes
      ensures WalStep(Encode(w) + rest, c) == More(Decoded(d.names[w.rec.id], w.rec), d, |Encode(w)|)
      ensures StatStep(Encode(w) + rest, ()) == More((), (), |Encode(w)|)
    {
      NextBodyWhole(w, rest);
    }
    forall k | 0 <= k < |Encode(w)|
      ensures WalStep(Encode(w)[..k], c) == Stop && StatStep(Encode(w)[..k], ()) == Stop
    {
      NextBodyTorn(w, k);
    }
  }

  /** ws as a scan starting from registry c reports them: each name is the one its id is pinned to. */
  ghost function Resolved(c: Catalog, ws: seq<WalRecord>): (ds: seq<Decoded>)
    ensures |ds| == |ws|
  {
    if ws == [] then []
    else
      var c' := Replay(c, ws);
      var w := ws[|ws| - 1];
      Resolved(c, ws[..|ws| - 1]) + [Decoded(if w.rec.id in c'.names then c'.names[w.rec.id] else [], w.rec)]
  }

  /** The registries met along a log. */
  ghost function Registries(c: Catalog, ws: seq<WalRecord>): (cs: seq<Catalog>)
    ensures |cs| == |ws| + 1
    ensures cs[|ws|] == Replay(c, ws)
    ensures cs[0] == c
  {
    if ws == [] then [c] else Registries(c, ws[..|ws| - 1]) + [Replay(c, ws)]
  }

  lemma {:induction false} RegistriesOfPrefix(c: Catalog, ws: seq<WalRecord>, m: nat)
    requires m <= |ws|
    ensures Registries(c, ws)[m] == Replay(c, ws[..m])
    ensures Resolved(c, ws)[..m] == Resolved(c, ws[..m])
  {
    if m == |ws| {
      assert ws[..m] == ws;
    } else {
      assert ws[..|ws| - 1][..m] == ws[..m];
      RegistriesOfPrefix(c, ws[..|ws| - 1], m);
    }
  }

  lemma LogReads(c: Catalog, ws: seq<WalRecord>, i: nat)
    requires Dense(c) && LogOrder(c, ws) && i < |ws|
    ensures Reads(Encode, WalStep, ws[i], Registries(c, ws)[i], Resolved(c, ws)[i], Registries(c, ws)[i + 1])
    ensures Reads(Encode, StatStep, ws[i], (), (), ())
  {
    hide Reads, Dense, LogOrder, Fits, Register, Registries, Replay;
    PrefixInOrder(c, ws, i);
    ReplayKeepsDense(c, ws[..i]);
    RegistriesOfPrefix(c, ws, i);
    RegistriesOfPrefix(c, ws, i + 1);
    assert ws[..i + 1] == ws[..i] + [ws[i]];
    ReplaySnoc(c, ws[..i], ws[i]);
    WalReads(ws[i], Replay(c, ws[..i]));
    assert Resolved(c, ws)[i] == Resolved(c, ws)[..i + 1][i];
    assert ws[..i + 1][..i] == ws[..i];
  }

  /**
   Scanning any prefix of a log gives exactly the records that are whole in it, as they were written,
   and the registry those records leave; the stats scan counts the same records and the same bytes.
   */
  lemma ScanOfPrefix(c: Catalog, ws: seq<WalRecord>, k: nat)
    requires Dense(c) && LogOrder(c, ws) && k <= |EncodeAll(ws)|
    ensures var m := Whole(Encode, ws, k);
            && Scan(EncodeAll(ws)[..k], c)
               == Scanned(Resolved(c, ws[..m]), Replay(c, ws[..m]), |EncodeAll(ws[..m])|)
            && Stats(EncodeAll(ws)[..k]).Scanned?
            && |Stats(EncodeAll(ws)[..k]).items| == m
            && Stats(EncodeAll(ws)[..k]).used == |EncodeAll(ws[..m])|
  {
    hide Reads, Dense, LogOrder;
    var cs, ds := Registries(c, ws), Resolved(c, ws);
    var us: seq<()> := seq(|ws| + 1, _ => ());
    var vs := us[..|ws|];
    forall i | 0 <= i < |ws|
      ensures Reads(Encode, WalStep, ws[i], cs[i], ds[i], cs[i + 1])
      ensures Reads(Encode, StatStep, ws[i], us[i], vs[i], us[i + 1])
    {
      LogReads(c, ws, i);
    }
    assert AllCut(Encode, WalStep, ws, cs, ds);
    assert AllCut(Encode, StatStep, ws, us, vs);
    ScanOfFrames(Encode, WalStep, ws, cs, ds, k);
    ScanOfFrames(Encode, StatStep, ws, us, vs, k);
    RegistriesOfPrefix(c, ws, Whole(Encode, ws, k));
  }
}
