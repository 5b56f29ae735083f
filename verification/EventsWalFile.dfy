/** The events log file in place: appending, resetting, and the loops that read it back. */
module EventsWalFile {
  import opened Prelude
  import opened Bytes
  import opened Names
  import opened Frames
  import opened EventsCatalog
  import opened EventsWal

  datatype AppendError = AppendIdOutOfRange | AppendBadType | AppendNameTooLong | AppendEmptyName

  /** What appendEventRecord refuses to write. */
  function AppendCheck(w: WalRecord): Option<AppendError> {
    if w.rec.id == 0 || w.rec.id > MAX_EVENTS then Some(AppendIdOutOfRange)
    else if !ValidType(w.rec.valueType) then Some(AppendBadType)
    else if |w.name| > MAX_NAME_LEN then Some(AppendNameTooLong)
    else None
  }

  class EventsWAL {
    var blob: bytes        // the file's contents
    var bufferSize: nat

    ghost predicate Valid()
      reads this
    {
      bufferSize == |blob|
    }

    /** Opens the file as a crash or a clean shutdown left it. */
    constructor (contents: bytes)
      ensures Valid() && blob == contents
    {
      blob := contents;
      bufferSize := |contents|;
    }

    method AppendEvent(rec: Record) returns (err: Option<AppendError>)
      requires Valid()
      modifies this
      ensures Valid() && err == AppendCheck(WalRecord([], rec))
      ensures blob == old(blob) + if err.None? then Encode(WalRecord([], rec)) else []
    {
      err := AppendRecord(WalRecord([], rec));
    }

    method AppendEventWithName(name: Name, rec: Record) returns (err: Option<AppendError>)
      requires Valid()
      modifies this
      ensures Valid()
      ensures err == if name == [] then Some(AppendEmptyName) else AppendCheck(WalRecord(name, rec))
      ensures blob == old(blob) + if err.None? then Encode(WalRecord(name, rec)) else []
    {
      if name == [] { return Some(AppendEmptyName); }
      err := AppendRecord(WalRecord(name, rec));
    }

    method AppendRecord(w: WalRecord) returns (err: Option<AppendError>)
      requires Valid()
      modifies this
      ensures Valid() && err == AppendCheck(w)
      ensures blob == old(blob) + if err.None? then Encode(w) else []
    {
      hide LE, LETs, PutUvarint;
      if w.rec.id == 0 || w.rec.id > MAX_EVENTS { return Some(AppendIdOutOfRange); }
      if !ValidType(w.rec.valueType) { return Some(AppendBadType); }
      if |w.name| > MAX_NAME_LEN { return Some(AppendNameTooLong); }

      var buf := LE(w.rec.id, 2);
      buf := buf + LETs(w.rec.ts);
      var flags: byte := 0;
      if w.name != [] {
        flags := NEW_EVENT;
      }
      buf := buf + [flags];
      if w.name != [] {
        buf := buf + [|w.name| % 256];
        buf := buf + w.name;
        buf := buf + [w.rec.valueType];
      }
      if w.rec.valueType != VALUE_NONE {
        buf := buf + LE(w.rec.raw, 4);
      }
      buf := buf + PutUvarint(|w.rec.payload|);
      buf := buf + w.rec.payload;
      assert buf == Body(w);

      var prefix := PutUvarint(|buf|);
      blob := blob + prefix;
      blob := blob + buf;
      bufferSize := bufferSize + |prefix| + |buf|;
      assert blob == old(blob) + Encode(w);
      return None;
    }

    /** Truncates the file. The caller must have saved the registry first. */
    method Reset()
      requires Valid()
      modifies this
      ensures Valid() && blob == []
    {
      if bufferSize == 0 { return; }
      blob := [];
      bufferSize := 0;
    }

    /** Reads every whole record, registering inline names in cat as they are met. */
    method RecordsWithCatalog(cat: EventCatalog) returns (r: Result<seq<Decoded>, WalError>)
      modifies cat
      ensures match Scan(blob, old(cat.View()))
              case Scanned(ds, c, _) => r == Ok(ds) && cat.View() == c
              case Failed(e) => r == Err(e)
    {
      hide WalStep;
      var out: seq<Decoded> := [];
      var pos := 0;
      ghost var start := cat.View();
      while true
        invariant 0 <= pos <= |blob|
        invariant Scan(blob, start) == Resume(out, pos, ScanWith(WalStep, blob[pos..], cat.View()))
        decreases |blob| - pos
      {
        ResumeTurn(WalStep, blob, pos, cat.View(), out);
        var turn := ReadRecord(blob, pos, cat);
        match turn {
          case Stop => break;
          case Fail(e) => return Err(e);
          case More(rec, _, used) =>
            out := out + [rec];
            pos := pos + used;
        }
      }
      return Ok(out);
    }
  }

  /** The body of the record at pos and the bytes it takes, or the crash tail. */
  method NextRecord(blob: bytes, pos: nat) returns (r: Option<(bytes, nat)>)
    requires pos <= |blob|
    ensures r == NextBody(blob[pos..])
  {
    if pos >= |blob| {
      return None;
    }
    match Uvarint(blob[pos..]) {
      case None =>
        return None;
      case Some((payloadLen, n)) =>
        if payloadLen > |blob| - pos - n {
          return None;
        }
        return Some((blob[pos..][n..n + payloadLen], n + payloadLen));
    }
  }

  method ReadRecord(blob: bytes, pos: nat, cat: EventCatalog) returns (s: Step<Catalog, Decoded, WalError>)
    requires pos <= |blob|
    modifies cat
    ensures s == WalStep(blob[pos..], old(cat.View()))
    ensures s.More? ==> cat.View() == s.state && 0 < s.used <= |blob| - pos
    ensures s.Stop? ==> cat.View() == old(cat.View())
  {
    var next := NextRecord(blob, pos);
    match next {
      case None => return Stop;
      case Some((payload, used)) =>
        var rec := DecodePayload(payload, cat);
        match rec {
          case Err(e) => return Fail(e);
          case Ok(d) => return More(d, cat.View(), used);
        }
    }
  }

  method DecodePayload(payload: bytes, cat: EventCatalog) returns (r: Result<Decoded, WalError>)
    modifies cat
    ensures match DecodeBody(payload, old(cat.View()))
            case Ok((d, c)) => r == Ok(d) && cat.View() == c
            case Err(e) => r == Err(e)
  {
    if |payload| < 2 + 8 + 1 + 1 { return Err(PayloadTooShort); }
    var pos := 0;
    var eventID := LEVal(Sub(payload, pos, 2));
    pos := pos + 2;
    var ts := TsVal(Sub(payload, pos, 8));
    pos := pos + 8;
    var flags := payload[pos];
    pos := pos + 1;
    if flags % NEW_EVENT != 0 { return Err(ReservedFlagSet); }

    var name: Name;
    var valueType: byte;
    if flags >= NEW_EVENT {
      var nameLen := payload[pos];
      pos := pos + 1;
      if pos + nameLen + 1 > |payload| { return Err(TruncatedName); }
      name := Sub(payload, pos, nameLen);
      pos := pos + nameLen;
      valueType := payload[pos];
      pos := pos + 1;
      if !ValidType(valueType) { return Err(InvalidInlineType); }
      var ensured := cat.EnsureEventEntry(name, eventID, valueType);
      if ensured.Err? { return Err(CatalogConflict(ensured.error)); }
    } else {
      if eventID !in cat.idToName { return Err(UnknownEventId); }
      name := cat.idToName[eventID];
      valueType := if name in cat.events then cat.events[name].valueType else VALUE_NONE;
    }
    var tail := DecodeValueAndPayload(payload, pos, valueType);
    match tail {
      case Err(e) => return Err(e);
      case Ok((raw, opaquePayload)) =>
        return Ok(Decoded(name, Record(eventID, ts, valueType, raw, opaquePayload)));
    }
  }

  method DecodeValueAndPayload(payload: bytes, start: nat, valueType: byte) returns (r: Result<(nat, bytes), WalError>)
    requires start <= |payload|
    ensures r == DecodeTail(payload, start, valueType)
  {
    var pos, raw := start, 0;
    if valueType != VALUE_NONE {
      if pos + 4 > |payload| { return Err(TruncatedValue); }
      raw := LEVal(Sub(payload, pos, 4));
      pos := pos + 4;
    }
    match Uvarint(payload[pos..]) {
      case None =>
        return Err(MalformedPayloadLength);
      case Some((payloadLen, n)) =>
        pos := pos + n;
        if pos + payloadLen >= TWO_63 { return Err(SliceBoundsPanic); }
        if pos + payloadLen > |payload| { return Err(TruncatedPayload); }
        var copied := Sub(payload, pos, payloadLen);
        pos := pos + payloadLen;
        if pos != |payload| { return Err(TrailingBytes); }
        return Ok((raw, copied));
    }
  }

  lemma StatTurn(b: bytes)
    ensures StatStep(b, ()) == if NextBody(b).None? then Stop else More((), (), NextBody(b).value.1)
  {
  }

  /** scanEventsWALAppendStats. */
  method ScanAppendStats(blob: bytes) returns (count: nat, consumed: nat)
    ensures Stats(blob).Scanned?
    ensures count == |Stats(blob).items| && consumed == Stats(blob).used
  {
    hide StatStep;
    count, consumed := 0, 0;
    var pos := 0;
    ghost var seen: seq<()> := [];
    while true
      invariant 0 <= pos <= |blob| && consumed == pos && count == |seen|
      invariant Stats(blob) == Resume(seen, pos, ScanWith(StatStep, blob[pos..], ()))
      decreases |blob| - pos
    {
      ResumeTurn(StatStep, blob, pos, (), seen);
      StatTurn(blob[pos..]);
      var next := NextRecord(blob, pos);
      if next.None? {
        break;
      }
      seen := seen + [()];
      count := count + 1;
      pos := pos + next.value.1;
      consumed := pos;
    }
  }
}
