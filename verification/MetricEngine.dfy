/**
 The metric layer of one database as a machine: open and sealed days, the log, the page flush, the log
 reset, and replay behind each partition's watermark.

 As in EventsEngine, an operation's trail lists the points after each of its durable writes.
 */
module MetricEngine {
  import opened Prelude
  import opened Bytes
  import opened Names
  import opened Samples
  import opened MetricRegistry

  /** A log record: the first one of a metric carries its name and type, the later ones carry neither. */
  datatype Logged =
    | Naming(name: MetricName, valueType: SampleType, sample: Sample)
    | Nameless(sample: Sample)

  const MAX_PAGE_RECORDS: int := 65535
  const MAX_PAGE_BYTES: int := 64 * 1024 * 1024

  /** `syncCatalog` is the durability profile that saves the registry after every page. */
  datatype Config = Config(part: Timestamp -> Part, limits: Limits, maxActiveDays: int, walEnabled: bool, syncCatalog: bool) {
    /** The bounds a manifest's page limits are held to. */
    predicate Valid() {
      limits.maxRecords <= MAX_PAGE_RECORDS && limits.maxBytes <= MAX_PAGE_BYTES
    }

    /** A setting below one falls back to two. */
    function MaxActive(): (n: int)
      ensures n >= 1
    {
      if maxActiveDays < 1 then 2 else maxActiveDays
    }
  }

  // ---------------------------------------------------------------- state

  /** The durable state: the entries of catalog.json, the log, and the frames of each data-<partition>.dat. */
  datatype Disk = Disk(saved: seq<SavedMetric>, wal: seq<Logged>, files: map<Part, seq<Page>>)

  /** A day is open without a page (None) from the moment it is opened until its first sample. */
  datatype Mem = Mem(cat: Registry, open: map<Part, Option<Page>>, sealed: set<Part>)

  datatype Point = Point(disk: Disk, mem: Mem)

  /** `put` is the sample that reached a page, `logged` the record that reached the log. */
  datatype Outcome = Outcome(err: Option<MetricError>, put: Option<Sample>, logged: Option<Logged>, end: Point, trail: seq<Point>)

  function Done(end: Point, trail: seq<Point>): Outcome {
    Outcome(None, None, None, end, trail)
  }

  function Failed(err: MetricError, end: Point, trail: seq<Point>): Outcome {
    Outcome(Some(err), None, None, end, trail)
  }

  function FramesIn(d: Disk, p: Part): seq<Page> {
    if p in d.files then d.files[p] else []
  }

  /** The samples on partition p's page; none when there is no page. */
  function OpenIn(m: Mem, p: Part): Page {
    if p in m.open && m.open[p].Some? then m.open[p].value else []
  }

  /** MaxEnd over the frames of a file. */
  function MaxEnd(frames: seq<Page>): (w: Option<Timestamp>) {
    if frames == [] then None
    else
      var w := MaxEnd(frames[..|frames| - 1]);
      var page := frames[|frames| - 1];
      if page == [] then w
      else if w.None? || EndOf(page) > w.value then Some(EndOf(page))
      else w
  }

  /** The watermark replay keeps for a partition: -1 stands for no frames. */
  function Mark(frames: seq<Page>): Timestamp {
    match MaxEnd(frames) case None => -1 case Some(t) => t
  }

  /** Replay skips a log record at or below a watermark that is not the sentinel. */
  predicate IsDurable(ts: Timestamp, mark: Timestamp) {
    mark >= 0 && ts <= mark
  }

  predicate Full(page: Page, lim: Limits, aged: bool) {
    |page| >= lim.Records() || 14 * |page| >= lim.Bytes() || aged
  }

  // ---------------------------------------------------------------- steps

  /** writePageToDailyFile and delete: a day without a page is only dropped. */
  function FlushDay(at: Point, p: Part): (r: Point) {
    var open := at.mem.open - {p};
    if OpenIn(at.mem, p) == [] then Point(at.disk, at.mem.(open := open))
    else
      Point(at.disk.(files := at.disk.files[p := FramesIn(at.disk, p) + [OpenIn(at.mem, p)]]), at.mem.(open := open))
  }

  /** WriteCatalog. */
  ghost function Save(at: Point): (r: Point) {
    Point(at.disk.(saved := Listing(at.mem.cat)), at.mem.(cat := at.mem.cat.(dirty := false)))
  }

  ghost function SaveIfDirty(at: Point): (r: Point) {
    if at.mem.cat.dirty then Save(at) else at
  }

  ghost function SaveTrail(at: Point): seq<Point> {
    if at.mem.cat.dirty then [Save(at)] else []
  }

  /** writePageToDailyFile and delete; the strict durability profile saves the registry after the frame. */
  ghost function WriteDay(cfg: Config, at: Point, p: Part): (r: Point) {
    var flushed := FlushDay(at, p);
    if cfg.syncCatalog && OpenIn(at.mem, p) != [] then SaveIfDirty(flushed) else flushed
  }

  ghost function WriteTrail(cfg: Config, at: Point, p: Part): seq<Point> {
    var flushed := FlushDay(at, p);
    if OpenIn(at.mem, p) == [] then []
    else [flushed] + if cfg.syncCatalog then SaveTrail(flushed) else []
  }

  predicate AnyPage(m: Mem) {
    exists p :: p in m.open && m.open[p].Some?
  }

  function Truncate(at: Point): (r: Point) {
    Point(at.disk.(wal := []), at.mem)
  }

  /** Whether maybeResetWAL goes on to truncate the log. */
  predicate MayReset(cfg: Config, at: Point) {
    cfg.walEnabled && !AnyPage(at.mem)
  }

  /** maybeResetWAL: the registry first, then the log. */
  ghost function MaybeReset(cfg: Config, at: Point): (r: Point) {
    if MayReset(cfg, at) then Truncate(SaveIfDirty(at)) else at
  }

  ghost function ResetTrail(cfg: Config, at: Point): seq<Point> {
    if !MayReset(cfg, at) then []
    else SaveTrail(at) + if at.disk.wal == [] then [] else [MaybeReset(cfg, at)]
  }

  ghost predicate IsLeast(keys: set<Part>, p: Part) {
    p in keys && forall q :: q in keys ==> p <= q
  }

  /** oldestOpenDay: the first key in string order. */
  ghost function Oldest(open: map<Part, Option<Page>>): (p: Part)
    requires open != map[]
    ensures IsLeast(open.Keys, p)
  {
    LeastExists(open.Keys);
    var p :| IsLeast(open.Keys, p);
    p
  }

  lemma {:induction false} LeastExists(keys: set<Part>)
    requires keys != {}
    ensures exists p :: IsLeast(keys, p)
    decreases |keys|
  {
    HasMember(keys);
    var q :| q in keys;
    var rest := keys - {q};
    assert forall k :: k in keys ==> k == q || k in rest;
    if rest == {} {
      assert IsLeast(keys, q);
    } else {
      LeastExists(rest);
      var p :| IsLeast(rest, p);
      assert IsLeast(keys, Min(p, q));
    }
  }

  /** sealDay. */
  ghost function SealDay(cfg: Config, at: Point, p: Part): (r: Outcome) {
    var flushed := WriteDay(cfg, at, p);
    var reset := MaybeReset(cfg, flushed);
    Done(reset.(mem := reset.mem.(sealed := reset.mem.sealed + {p})),
         WriteTrail(cfg, at, p) + ResetTrail(cfg, flushed))
  }

  /** ensureDayOpen. */
  ghost function EnsureDay(cfg: Config, at: Point, p: Part): (r: Outcome) {
    if p in at.mem.sealed then Failed(AlreadySealed, at, [])
    else if p in at.mem.open then Done(at, [])
    else
      var made := if |at.mem.open| >= cfg.MaxActive() then SealDay(cfg, at, Oldest(at.mem.open))
                  else Done(at, []);
      made.(end := made.end.(mem := made.end.mem.(open := made.end.mem.open[p := None])))
  }

  /** Whether the page of day p would refuse ts. */
  predicate Refuses(m: Mem, p: Part, ts: Timestamp) {
    OpenIn(m, p) != [] && ts < EndOf(OpenIn(m, p))
  }

  /** addToOpenDay, when the page does not refuse the sample. */
  function Put(at: Point, p: Part, s: Sample): (r: Point) {
    at.(mem := at.mem.(open := at.mem.open[p := Some(OpenIn(at.mem, p) + [s])], cat := NoteLast(at.mem.cat, s.id, s.ts)))
  }

  function AppendLog(at: Point, w: Option<Logged>): (r: Point) {
    at.(disk := at.disk.(wal := at.disk.wal + match w case None => [] case Some(x) => [x]))
  }

  // ---------------------------------------------------------------- ingest

  /**
   A call of addParsedSample. `force` and `retry` are its flags; `recent` and `aged` are answers of the
   clock; `order` is the order in which the map of open days is walked.
   */
  datatype Request = Request(
    name: MetricName, ts: Timestamp, valueType: SampleType, raw: Word, force: bool, retry: bool,
    recent: bool, aged: set<Part>, order: seq<Part>)

  predicate UsesLog(cfg: Config, q: Request) {
    q.force || (cfg.walEnabled && q.recent)
  }

  function EntryFor(cfg: Config, known: bool, q: Request, id: nat): Option<Logged> {
    var s := Sample(id, q.ts, q.raw);
    if !UsesLog(cfg, q) then None
    else if known then Some(Nameless(s))
    else Some(Naming(q.name, q.valueType, s))
  }

  /** flushEligibleOpenDays: every full page but the current day's. */
  ghost function FlushFull(cfg: Config, at: Point, today: Part, order: seq<Part>, aged: set<Part>): (r: Outcome) {
    if order == [] then Done(at, [])
    else
      var prev := FlushFull(cfg, at, today, order[..|order| - 1], aged);
      var p := order[|order| - 1];
      var page := OpenIn(prev.end.mem, p);
      if p == today || page == [] || !Full(page, cfg.limits, p in aged) then prev
      else prev.(end := WriteDay(cfg, prev.end, p), trail := prev.trail + WriteTrail(cfg, prev.end, p))
  }

  /** What follows a sample that is on its page. */
  ghost function AfterPut(cfg: Config, put: Point, q: Request): (r: Outcome) {
    var p := cfg.part(q.ts);
    var page := OpenIn(put.mem, p);
    var others := FlushFull(cfg, put, p, q.order, q.aged);
    if !Full(page, cfg.limits, p in q.aged) then others
    else
      var flushed := WriteDay(cfg, others.end, p);
      Done(MaybeReset(cfg, flushed), others.trail + WriteTrail(cfg, others.end, p) + ResetTrail(cfg, flushed))
  }

  /** The durable write of a log append, seen with the memory that goes with it. */
  function LogTrail(w: Option<Logged>, after: Point): seq<Point> {
    if w.None? then [] else [after]
  }

  /** From the log append on. */
  ghost function LogAndPut(cfg: Config, at: Point, w: Option<Logged>, s: Sample, q: Request): (r: Outcome) {
    var p := cfg.part(s.ts);
    if !Refuses(at.mem, p, s.ts) then
      var put := Put(AppendLog(at, w), p, s);
      var rest := AfterPut(cfg, put, q);
      rest.(put := Some(s), logged := w, trail := LogTrail(w, put) + rest.trail)
    else
      var logged := AppendLog(at, w);
      if !q.retry then Failed(OutOfOrder, logged, LogTrail(w, logged)).(logged := w)
      else
        var put := Put(WriteDay(cfg, logged, p), p, s);
        var rest := AfterPut(cfg, put, q);
        rest.(put := Some(s), logged := w, trail := LogTrail(w, logged) + WriteTrail(cfg, logged, p) + rest.trail)
  }

  ghost function AddSample(cfg: Config, at: Point, q: Request): (r: Outcome) {
    var known := q.name in at.mem.cat.metrics;
    if known && at.mem.cat.metrics[q.name].last.Some? && q.ts < at.mem.cat.metrics[q.name].last.value then
      Failed(Stale, at, [])
    else
      var ready := EnsureDay(cfg, at, cfg.part(q.ts));
      if ready.err.Some? then ready
      else
        var (c, given) := GetId(ready.end.mem.cat, q.name, q.valueType);
        var named := ready.end.(mem := ready.end.mem.(cat := c));
        match given
        case Err(e) => Failed(e, named, ready.trail)
        case Ok(id) =>
          var s := Sample(id, q.ts, q.raw);
          var rest := LogAndPut(cfg, named, EntryFor(cfg, known, q, id), s, q);
          rest.(trail := ready.trail + rest.trail)
  }

  ghost function FlushDays(cfg: Config, at: Point, order: seq<Part>): (r: Outcome) {
    if order == [] then Done(at, [])
    else
      var prev := FlushDays(cfg, at, order[..|order| - 1]);
      var p := order[|order| - 1];
      if OpenIn(prev.end.mem, p) == [] then prev
      else prev.(end := WriteDay(cfg, prev.end, p), trail := prev.trail + WriteTrail(cfg, prev.end, p))
  }

  /** The flush of Close and flushDatabases: the open days in the given order, the log reset, the registry. */
  ghost function FlushAll(cfg: Config, at: Point, order: seq<Part>): (r: Outcome) {
    var flushed := FlushDays(cfg, at, order);
    var reset := MaybeReset(cfg, flushed.end);
    Done(SaveIfDirty(reset), flushed.trail + ResetTrail(cfg, flushed.end) + SaveTrail(reset))
  }

  // ---------------------------------------------------------------- replay

  /** The watermark of partition p: the cached one, or the file's when p is met for the first time. */
  function MarkOf(marks: map<Part, Timestamp>, d: Disk, p: Part): Timestamp {
    if p in marks then marks[p] else Mark(FramesIn(d, p))
  }

  datatype Replayed = Replayed(out: Outcome, marks: map<Part, Timestamp>)

  /** Registers the record's metric; the record is refused when its id stays unknown. */
  function NameRecord(c: Registry, w: Logged): (r: Result<Registry, MetricError>) {
    match if w.Nameless? then Ok(c) else Ensure(c, w.name, w.sample.id, w.valueType)
    case Err(e) => Err(e)
    case Ok(d) => if w.sample.id !in d.names then Err(UnknownId) else Ok(d)
  }

  /** Opens the day of a record above the watermark and puts the record on its page, flushing a page that refuses it. */
  ghost function Reinsert(cfg: Config, at: Point, s: Sample): (r: Outcome) {
    var p := cfg.part(s.ts);
    var ready := EnsureDay(cfg, at, p);
    if ready.err.Some? then ready
    else if !Refuses(ready.end.mem, p, s.ts) then ready.(end := Put(ready.end, p, s))
    else
      var again := EnsureDay(cfg, WriteDay(cfg, ready.end, p), p);
      var trail := ready.trail + WriteTrail(cfg, ready.end, p) + again.trail;
      if again.err.Some? then again.(trail := trail)
      else Done(Put(again.end, p, s), trail)
  }

  /** One turn of the replay loop. */
  ghost function ReplayOne(cfg: Config, prev: Replayed, w: Logged): (r: Replayed) {
    var at := prev.out.end;
    match NameRecord(at.mem.cat, w)
    case Err(e) => prev.(out := prev.out.(err := Some(e)))
    case Ok(c) =>
      var p := cfg.part(w.sample.ts);
      var mark := MarkOf(prev.marks, at.disk, p);
      var named := at.(mem := at.mem.(cat := c));
      var marks := prev.marks[p := mark];
      if IsDurable(w.sample.ts, mark) then Replayed(prev.out.(end := named), marks)
      else
        var one := Reinsert(cfg, named, w.sample);
        Replayed(one.(trail := prev.out.trail + one.trail), marks)
  }

  /** The replay loop over the records of the log; it stops at the first error. */
  ghost function Replay(cfg: Config, d: Disk, c: Registry, ws: seq<Logged>): (r: Replayed) {
    if ws == [] then Replayed(Done(Point(d, Mem(c, map[], {})), []), map[])
    else
      var prev := Replay(cfg, d, c, ws[..|ws| - 1]);
      if prev.out.err.Some? then prev else ReplayOne(cfg, prev, ws[|ws| - 1])
  }

  /** RecordsWithCatalog finds in c the type of every record that carries none. */
  predicate Resolves(c: Registry, ws: seq<Logged>) {
    forall i :: 0 <= i < |ws| && ws[i].Nameless? ==> ws[i].sample.id in c.names
  }

  /** Opening a database whose registry loaded as c: with the log disabled it is truncated instead of replayed. */
  ghost function OpenFrom(cfg: Config, d: Disk, c: Registry): (r: Outcome) {
    var start := Point(d, Mem(c, map[], {}));
    if !cfg.walEnabled then Done(Truncate(start), if d.wal == [] then [] else [Truncate(start)])
    else if !Resolves(c, d.wal) then Failed(UnknownId, start, [])
    else Replay(cfg, d, c, d.wal).out
  }

  /** Opening a database. */
  ghost function Reopen(cfg: Config, d: Disk): (r: Outcome) {
    match Load(d.saved)
    case Err(e) => Failed(e, Point(d, Mem(NO_METRICS, map[], {})), [])
    case Ok(c) => OpenFrom(cfg, d, c)
  }
}
