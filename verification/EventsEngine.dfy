/**
 The events layer of one database as a machine: what each operation does to memory and to the durable
 files, write by write, and what reopening rebuilds.

 A Point is the durable files together with the memory that goes with them. An operation's trail lists
 the points after each of its durable writes, so a crash is the loss of memory at any point of a trail.
 */
module EventsEngine {
  import opened Prelude
  import opened Bytes
  import opened Names
  import opened Frames
  import opened Codec
  import opened EventsCatalog
  import opened EventsWal
  import opened EventsFrames

  /** The largest events.max_payload_bytes a manifest may set. */
  const MAX_PAYLOAD_SETTING: int := 16 * 1024 * 1024

  datatype Config = Config(part: Timestamp -> Part, limits: Limits, maxPayload: int, codec: Codec) {
    predicate Valid() { maxPayload <= MAX_PAYLOAD_SETTING }
  }

  /** The durable files: events.json, the events log, and the frames of each events-<partition>.dat. */
  datatype Disk = Disk(snapshot: seq<DiskEntry>, wal: seq<WalRecord>, files: map<Part, seq<seq<Record>>>)

  datatype Mem = Mem(cat: Catalog, open: map<Part, seq<Record>>)

  datatype Point = Point(disk: Disk, mem: Mem)

  datatype Value = NoValue | Int32(word: Word) | Float32(word: Word)

  /** A call of AddEvent; `now` and `aged` are the answers of the clock. */
  datatype Request = Request(name: Name, ts: Timestamp, value: Value, payload: bytes, now: Timestamp, aged: bool)

  datatype IngestError =
    | EventNameEmpty
    | EventNameTooLong
    | EventPayloadTooLarge
    | Rejected(cause: CatalogError)
    | Stale
    | PageTooLarge

  datatype Outcome = Outcome(err: Option<IngestError>, logged: Option<Record>, end: Point, trail: seq<Point>)

  function TypeOfValue(v: Value): byte {
    match v case NoValue => VALUE_NONE case Int32(_) => INT32_SAMPLE case Float32(_) => FLOAT32_SAMPLE
  }

  function RawOfValue(v: Value): Word {
    match v case NoValue => 0 case Int32(w) => w case Float32(w) => w
  }

  function OpenIn(m: Mem, p: Part): seq<Record> {
    if p in m.open then m.open[p] else []
  }

  function FramesIn(d: Disk, p: Part): seq<seq<Record>> {
    if p in d.files then d.files[p] else []
  }

  predicate PageFits(cfg: Config, rs: seq<Record>) {
    rs != [] && |Compressed(cfg.codec, rs)| <= MAX_FRAME_PAYLOAD
  }

  // ---------------------------------------------------------------- operations

  /** writeEventCatalogIfDirty. */
  ghost function Save(at: Point): (r: Outcome) {
    if !at.mem.cat.dirty then Outcome(None, None, at, [])
    else
      var next := Point(at.disk.(snapshot := Snapshot(at.mem.cat)), at.mem.(cat := at.mem.cat.(dirty := false)));
      Outcome(None, None, next, [next])
  }

  ghost function Truncate(at: Point): (r: Outcome) {
    if at.disk.wal == [] then Outcome(None, None, at, [])
    else
      var next := Point(at.disk.(wal := []), at.mem);
      Outcome(None, None, next, [next])
  }

  function AnyOpen(m: Mem): bool {
    exists p :: p in m.open && m.open[p] != []
  }

  /** maybeResetEventsWAL: nothing while a page holds records, else the registry first and then the log. */
  ghost function MaybeReset(at: Point): (r: Outcome) {
    if AnyOpen(at.mem) then Outcome(None, None, at, [])
    else
      var saved := Save(at);
      var reset := Truncate(saved.end);
      Outcome(None, None, reset.end, saved.trail + reset.trail)
  }

  /** AppendEventsPageFrame and removal of the page. */
  function FlushPage(at: Point, p: Part): (r: Point)
    requires p in at.mem.open
  {
    Point(at.disk.(files := at.disk.files[p := FramesIn(at.disk, p) + [at.mem.open[p]]]),
          at.mem.(open := at.mem.open - {p}))
  }

  /** The log append, and the memory that goes with it once the record is on its page. */
  function LogRecord(cfg: Config, at: Point, c: Catalog, w: WalRecord): (r: Point) {
    var p := cfg.part(w.rec.ts);
    Point(at.disk.(wal := at.disk.wal + [w]), Mem(c, at.mem.open[p := OpenIn(at.mem, p) + [w.rec]]))
  }

  /** The record a request stands for, once its name has an id. */
  function RecordOf(q: Request, id: nat): Record {
    Record(id, if q.ts == 0 then q.now else q.ts, TypeOfValue(q.value), RawOfValue(q.value), q.payload)
  }

  ghost function AddEvent(cfg: Config, at: Point, q: Request): (r: Outcome) {
    var name := Trim(q.name);
    if name == [] then Outcome(Some(EventNameEmpty), None, at, [])
    else if |name| > MAX_NAME_LEN then Outcome(Some(EventNameTooLong), None, at, [])
    else if |q.payload| > cfg.maxPayload then Outcome(Some(EventPayloadTooLarge), None, at, [])
    else
      var (c, given) := Assign(at.mem.cat, name, TypeOfValue(q.value));
      match given
      case Err(e) => Outcome(Some(Rejected(e)), None, Point(at.disk, at.mem.(cat := c)), [])
      case Ok(id) =>
        var rec := RecordOf(q, id);
        if LastTs(c, id).Some? && rec.ts < LastTs(c, id).value then
          Outcome(Some(Stale), None, Point(at.disk, at.mem.(cat := c)), [])
        else
          var w := WalRecord(if name in at.mem.cat.events then [] else name, rec);
          var noted := UpdateLast(c, id, rec.ts);
          var logged := LogRecord(cfg, at, if noted.Ok? then noted.value else c, w);
          AfterLog(cfg, logged, rec, q.aged)
  }

  /** The flush decision that ends AddEvent. */
  ghost function AfterLog(cfg: Config, logged: Point, rec: Record, aged: bool): (r: Outcome) {
    var p := cfg.part(rec.ts);
    var page := OpenIn(logged.mem, p);
    if p in logged.mem.open && (MustForceFlush(page, cfg.limits) || Full(page, cfg.limits, aged)) then
      if !PageFits(cfg, page) then Outcome(Some(PageTooLarge), Some(rec), logged, [logged])
      else
        var flushed := FlushPage(logged, p);
        var reset := MaybeReset(flushed);
        Outcome(None, Some(rec), reset.end, [logged, flushed] + reset.trail)
    else Outcome(None, Some(rec), logged, [logged])
  }

  /** flushOpenEventsPages over the pages in the given order; it stops at a page that cannot be written. */
  ghost function FlushPages(cfg: Config, at: Point, order: seq<Part>): (r: Outcome) {
    if order == [] then Outcome(None, None, at, [])
    else
      var prev := FlushPages(cfg, at, order[..|order| - 1]);
      var p := order[|order| - 1];
      if prev.err.Some? || p !in prev.end.mem.open then prev
      else if prev.end.mem.open[p] == [] then
        prev.(end := Point(prev.end.disk, prev.end.mem.(open := prev.end.mem.open - {p})))
      else if !PageFits(cfg, prev.end.mem.open[p]) then prev.(err := Some(PageTooLarge))
      else
        var next := FlushPage(prev.end, p);
        prev.(end := next, trail := prev.trail + [next])
  }

  /** The flush-then-reset of Close and flushDatabases. */
  ghost function FlushAll(cfg: Config, at: Point, order: seq<Part>): (r: Outcome) {
    var flushed := FlushPages(cfg, at, order);
    if flushed.err.Some? then flushed
    else
      var reset := MaybeReset(flushed.end);
      Outcome(None, None, reset.end, flushed.trail + reset.trail)
  }

  datatype Op = Add(q: Request) | Flush(order: seq<Part>) | SaveCatalog

  ghost function Perform(cfg: Config, at: Point, op: Op): (r: Outcome) {
    match op
    case Add(q) => AddEvent(cfg, at, q)
    case Flush(order) => FlushAll(cfg, at, order)
    case SaveCatalog => Save(at)
  }

  // ---------------------------------------------------------------- reopening

  /** The largest end time of a partition's frames, if it has any: the replay watermark. */
  function Watermark(frames: seq<seq<Record>>): (w: Option<Timestamp>) {
    if frames == [] then None
    else
      var w := Watermark(frames[..|frames| - 1]);
      var page := frames[|frames| - 1];
      if page == [] then w
      else if w.None? || MaxTs(page) > w.value then Some(MaxTs(page))
      else w
  }

  predicate IsAbove(t: Timestamp, w: Option<Timestamp>) {
    w.None? || t > w.value
  }

  /** The per-record loop of replayEventsWALIntoRuntime. */
  function Rebuild(cfg: Config, d: Disk, c: Catalog, ds: seq<Decoded>): (m: Mem) {
    if ds == [] then Mem(c, map[])
    else
      var m := Rebuild(cfg, d, c, ds[..|ds| - 1]);
      var r := ds[|ds| - 1].rec;
      var p := cfg.part(r.ts);
      if !IsAbove(r.ts, Watermark(FramesIn(d, p))) then m
      else
        var noted := UpdateLast(m.cat, r.id, r.ts);
        Mem(if noted.Ok? then noted.value else m.cat, m.open[p := OpenIn(m, p) + [r]])
  }

  datatype ReopenError = BadSnapshot(cause: CatalogError) | BadLog(error: WalError)

  /** Loading events.json, scanning the log's bytes, and replaying behind each partition's watermark. */
  function Reopen(cfg: Config, d: Disk): (r: Result<Mem, ReopenError>) {
    match Load(d.snapshot)
    case Err(e) => Err(BadSnapshot(e))
    case Ok(base) =>
      match Scan(EncodeAll(d.wal), base)
      case Failed(e) => Err(BadLog(e))
      case Scanned(ds, c, _) => Ok(Rebuild(cfg, d, c, ds))
  }

  // ---------------------------------------------------------------- selections

  /** The records logged for partition p, in log order. */
  function LoggedIn(cfg: Config, ws: seq<WalRecord>, p: Part): (rs: seq<Record>) {
    if ws == [] then []
    else
      var r := ws[|ws| - 1].rec;
      LoggedIn(cfg, ws[..|ws| - 1], p) + if cfg.part(r.ts) == p then [r] else []
  }

  function Above(rs: seq<Record>, w: Option<Timestamp>): (s: seq<Record>) {
    if rs == [] then []
    else
      var r := rs[|rs| - 1];
      Above(rs[..|rs| - 1], w) + if IsAbove(r.ts, w) then [r] else []
  }

  /** The log records of partition p that replay will put back on an open page. */
  function Survivors(cfg: Config, d: Disk, p: Part): (s: seq<Record>) {
    Above(LoggedIn(cfg, d.wal, p), Watermark(FramesIn(d, p)))
  }

  lemma AboveSnoc(rs: seq<Record>, r: Record, w: Option<Timestamp>)
    ensures Above(rs + [r], w) == Above(rs, w) + if IsAbove(r.ts, w) then [r] else []
  {
    assert (rs + [r])[..|rs|] == rs;
  }

  lemma {:induction false} AboveMembers(rs: seq<Record>, w: Option<Timestamp>)
    ensures forall r :: r in Above(rs, w) <==> r in rs && IsAbove(r.ts, w)
    ensures multiset(Above(rs, w)) <= multiset(rs)
  {
    if rs != [] {
      var init, last := rs[..|rs| - 1], rs[|rs| - 1];
      assert rs == init + [last];
      AboveMembers(init, w);
    }
  }

  /** Filtering keeps everything exactly when everything passes. */
  lemma {:induction false} AboveIsAllIff(rs: seq<Record>, w: Option<Timestamp>)
    ensures |Above(rs, w)| <= |rs|
    ensures Above(rs, w) == rs <==> forall r :: r in rs ==> IsAbove(r.ts, w)
  {
    if rs != [] {
      var init, last := rs[..|rs| - 1], rs[|rs| - 1];
      assert rs == init + [last];
      AboveIsAllIff(init, w);
      if IsAbove(last.ts, w) {
        assert Above(rs, w) == rs ==> Above(rs, w)[..|rs| - 1] == init;
      }
    }
  }

  lemma {:induction false} WatermarkSnoc(frames: seq<seq<Record>>, page: seq<Record>)
    requires page != []
    ensures var w, w' := Watermark(frames), Watermark(frames + [page]);
            w'.Some? && w'.value >= MaxTs(page) && (w.Some? ==> w'.value >= w.value)
  {
    assert (frames + [page])[..|frames|] == frames;
  }
}
