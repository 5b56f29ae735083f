/**
 Whole runs of the events layer: operations, crashes between any two durable writes, and reopening.
 */
module EventsRuns {
  import opened Prelude
  import opened Bytes
  import opened Names
  import opened EventsCatalog
  import opened EventsWal
  import opened EventsFrames
  import opened EventsEngine
  import opened EventsInvariant

  // ---------------------------------------------------------------- one operation

  function Entered(cfg: Config, logged: Option<Record>, p: Part): seq<Record> {
    if logged.Some? && cfg.part(logged.value.ts) == p then [logged.value] else []
  }

  /** What is asked of a run: that no event comes late, that every name is valid UTF-8. */
  datatype Mode = Mode(ordered: bool, text: bool)

  const ANYHOW: Mode := Mode(false, false)
  const IN_ORDER: Mode := Mode(true, true)
  const IN_TEXT: Mode := Mode(false, true)

  /** Every open record is later than every frame already flushed to its partition. */
  ghost predicate AllAbove(at: Point) {
    forall p, r :: r in OpenIn(at.mem, p) ==> IsAbove(r.ts, Watermark(FramesIn(at.disk, p)))
  }

  ghost predicate Keeps(mode: Mode, at: Point) {
    (mode.ordered ==> AllAbove(at)) && (mode.text ==> IsReadable(at.mem.cat))
  }

  /** pt stores what `from` stored and the logged record after it, and pins what `from` pinned. */
  ghost predicate Carries(cfg: Config, from: Point, logged: Option<Record>, mode: Mode, pt: Point) {
    && Inv(cfg, pt)
    && Extends(from.mem.cat, pt.mem.cat)
    && (forall p :: Stored(pt, p) == Stored(from, p) + Entered(cfg, logged, p))
    && Keeps(mode, pt)
  }

  /** The outcome and every point a crash can cut it at carry the same records. */
  ghost predicate Sound(cfg: Config, from: Point, mode: Mode, out: Outcome) {
    && Carries(cfg, from, out.logged, mode, out.end)
    && (forall k :: 0 <= k < |out.trail| ==> Carries(cfg, from, out.logged, mode, out.trail[k]))
    && (out.logged.Some? ==> out.trail != [])
  }

  lemma CarriesFlush(cfg: Config, from: Point, logged: Option<Record>, mode: Mode, pt: Point, q: Part)
    requires Carries(cfg, from, logged, mode, pt) && q in pt.mem.open
    ensures Carries(cfg, from, logged, mode, FlushPage(pt, q))
  {
    FlushKeepsInv(cfg, pt, q);
    var next := FlushPage(pt, q);
    if mode.ordered {
      forall p, r | r in OpenIn(next.mem, p) ensures IsAbove(r.ts, Watermark(FramesIn(next.disk, p))) {
        assert Belongs(cfg, pt.mem.cat, q, pt.mem.open[q]);
        FlushTracks(cfg, pt, q, p);
        assert r in OpenIn(pt.mem, p);
      }
    }
  }

  lemma CarriesSame(cfg: Config, from: Point, logged: Option<Record>, mode: Mode, pt: Point, next: Point)
    requires Carries(cfg, from, logged, mode, pt) && Inv(cfg, next)
    requires next.mem.open == pt.mem.open && next.disk.files == pt.disk.files
    requires next.mem.cat == pt.mem.cat.(dirty := next.mem.cat.dirty)
    ensures Carries(cfg, from, logged, mode, next)
  {
    hide Inv, Flatten;
    forall p ensures Stored(next, p) == Stored(from, p) + Entered(cfg, logged, p) {
      assert Stored(pt, p) == Stored(from, p) + Entered(cfg, logged, p);
    }
    if mode.ordered {
      forall p, r | r in OpenIn(next.mem, p) ensures IsAbove(r.ts, Watermark(FramesIn(next.disk, p))) {
        assert r in OpenIn(pt.mem, p);
      }
    }
  }

  lemma NoneOpen(cfg: Config, m: Mem)
    requires OpenOk(cfg, m) && !AnyOpen(m)
    ensures m.open == map[]
  {
    assert forall p :: p in m.open ==> Belongs(cfg, m.cat, p, m.open[p]);
    assert forall p :: p !in m.open;
  }

  lemma CarriesGives(cfg: Config, from: Point, logged: Option<Record>, mode: Mode, pt: Point)
    requires Carries(cfg, from, logged, mode, pt)
    ensures Inv(cfg, pt) && OpenOk(cfg, pt.mem)
    ensures forall p :: p in pt.mem.open ==> pt.mem.open[p] != []
  {
    hide DiskOk, CatOk, FilesOk, Tracks;
    assert forall p :: p in pt.mem.open ==> Belongs(cfg, pt.mem.cat, p, pt.mem.open[p]);
  }

  /** Saving the registry and then truncating the log loses nothing at either write. */
  lemma ResetIsSound(cfg: Config, from: Point, logged: Option<Record>, mode: Mode, pt: Point)
    requires Carries(cfg, from, logged, mode, pt)
    ensures var r := MaybeReset(pt);
            && Carries(cfg, from, logged, mode, r.end)
            && forall k :: 0 <= k < |r.trail| ==> Carries(cfg, from, logged, mode, r.trail[k])
  {
    hide Carries, Inv, OpenOk;
    if !AnyOpen(pt.mem) {
      CarriesGives(cfg, from, logged, mode, pt);
      NoneOpen(cfg, pt.mem);
      var saved := Save(pt);
      SaveKeepsInv(cfg, pt);
      CarriesSame(cfg, from, logged, mode, pt, saved.end);
      TruncateKeepsInv(cfg, saved.end);
      CarriesSame(cfg, from, logged, mode, saved.end, Truncate(saved.end).end);
    }
  }

  lemma CarriesStart(cfg: Config, at: Point, mode: Mode)
    requires Inv(cfg, at) && Keeps(mode, at)
    ensures Carries(cfg, at, None, mode, at)
  {
  }

  lemma SaveIsSound(cfg: Config, at: Point, mode: Mode)
    requires Inv(cfg, at) && Keeps(mode, at)
    ensures Sound(cfg, at, mode, Save(at))
  {
    SaveKeepsInv(cfg, at);
    CarriesStart(cfg, at, mode);
    CarriesSame(cfg, at, None, mode, at, Save(at).end);
  }

  lemma {:induction false} FlushPagesIsSound(cfg: Config, at: Point, mode: Mode, order: seq<Part>)
    requires Inv(cfg, at) && Keeps(mode, at)
    ensures Sound(cfg, at, mode, FlushPages(cfg, at, order)) && FlushPages(cfg, at, order).logged == None
  {
    hide Carries, Inv, OpenOk, PageFits, FlushPage, AllAbove;
    if order == [] {
      CarriesStart(cfg, at, mode);
    } else {
      var init, p := order[..|order| - 1], order[|order| - 1];
      FlushPagesIsSound(cfg, at, mode, init);
      var prev := FlushPages(cfg, at, init);
      CarriesGives(cfg, at, None, mode, prev.end);
      if p in prev.end.mem.open {
        CarriesFlush(cfg, at, None, mode, prev.end, p);
      }
    }
  }

  lemma FlushAllIsSound(cfg: Config, at: Point, mode: Mode, order: seq<Part>)
    requires Inv(cfg, at) && Keeps(mode, at)
    ensures Sound(cfg, at, mode, FlushAll(cfg, at, order)) && FlushAll(cfg, at, order).logged == None
  {
    hide Carries, Inv, AllAbove, FlushPages, MaybeReset;
    FlushPagesIsSound(cfg, at, mode, order);
    var flushed := FlushPages(cfg, at, order);
    if flushed.err.None? {
      ResetIsSound(cfg, at, None, mode, flushed.end);
    }
  }

  /** The registry ingest leaves after assigning an id and noting the time. */
  ghost function Noted(c: Catalog, id: nat, ts: Timestamp): Catalog {
    if UpdateLast(c, id, ts).Ok? then UpdateLast(c, id, ts).value else c
  }

  /** Whatever the files hold, an accepted request continues the registry in memory. */
  lemma AssignedExtends(c: Catalog, q: Request, id: nat)
    requires Dense(c)
    requires Trim(q.name) != [] && |Trim(q.name)| <= MAX_NAME_LEN && |q.payload| <= MAX_SLICE
    requires Assign(c, Trim(q.name), TypeOfValue(q.value)).1 == Ok(id)
    ensures var rec := RecordOf(q, id);
            var d := Noted(Assign(c, Trim(q.name), TypeOfValue(q.value)).0, id, rec.ts);
            && Dense(d) && Extends(c, d) && SamePins(d, Assign(c, Trim(q.name), TypeOfValue(q.value)).0)
            && ValidRecord(rec) && TypeOf(d, id) == Some(rec.valueType)
  {
    hide Trim;
    var name, vt := Trim(q.name), TypeOfValue(q.value);
    TrimmedIsValid(q.name);
    AssignKeepsDense(c, name, vt);
    var c1 := Assign(c, name, vt).0;
    var ts := RecordOf(q, id).ts;
    UpdateLastKeepsPins(c1, id, ts);
    SamePinsExtends(c1, Noted(c1, id, ts));
    ExtendsTransitive(c, c1, Noted(c1, id, ts));
    DenseTypeOf(c1, Noted(c1, id, ts), id);
  }

  lemma AssignedReadable(c: Catalog, q: Request, id: nat)
    requires Dense(c) && IsReadable(c) && IsText(Trim(q.name))
    requires Assign(c, Trim(q.name), TypeOfValue(q.value)).1 == Ok(id)
    ensures IsReadable(Noted(Assign(c, Trim(q.name), TypeOfValue(q.value)).0, id, RecordOf(q, id).ts))
  {
    hide Trim;
  }

  lemma AssignedFits(at: Point, q: Request, id: nat)
    requires Dense(at.mem.cat) && DiskOk(at.disk) && CatOk(at)
    requires Trim(q.name) != [] && |Trim(q.name)| <= MAX_NAME_LEN && |q.payload| <= MAX_SLICE
    requires Assign(at.mem.cat, Trim(q.name), TypeOfValue(q.value)).1 == Ok(id)
    ensures var name := Trim(q.name);
            var w := WalRecord(if name in at.mem.cat.events then [] else name, RecordOf(q, id));
            var c := Noted(Assign(at.mem.cat, name, TypeOfValue(q.value)).0, id, w.rec.ts);
            && Fits(Rebuilt(at.disk), w) && SamePins(c, Register(Rebuilt(at.disk), w))
            && (!c.dirty ==> !at.mem.cat.dirty && SamePins(c, at.mem.cat))
  {
    hide Trim;
    var name, vt := Trim(q.name), TypeOfValue(q.value);
    TrimmedIsValid(q.name);
    AssignKeepsDense(at.mem.cat, name, vt);
    var c1 := Assign(at.mem.cat, name, vt).0;
    var ts := RecordOf(q, id).ts;
    UpdateLastKeepsPins(c1, id, ts);
    var w := WalRecord(if name in at.mem.cat.events then [] else name, RecordOf(q, id));
    AssignedExtends(at.mem.cat, q, id);
    AssignedRegisters(at.mem.cat, Rebuilt(at.disk), w, name, vt, c1);
    SamePinsTransitive(Noted(c1, id, ts), c1, Register(Rebuilt(at.disk), w));
    if !c1.dirty {
      SamePinsTransitive(Noted(c1, id, ts), c1, at.mem.cat);
    }
  }

  lemma AssignedContinues(cfg: Config, at: Point, q: Request, id: nat)
    requires Inv(cfg, at)
    requires Trim(q.name) != [] && |Trim(q.name)| <= MAX_NAME_LEN && |q.payload| <= MAX_SLICE
    requires Assign(at.mem.cat, Trim(q.name), TypeOfValue(q.value)).1 == Ok(id)
    ensures var name := Trim(q.name);
            var w := WalRecord(if name in at.mem.cat.events then [] else name, RecordOf(q, id));
            Continues(at, Noted(Assign(at.mem.cat, name, TypeOfValue(q.value)).0, id, w.rec.ts), w)
  {
    hide Trim, Noted, Assign, Dense, Extends, IsReadable, DiskOk, CatOk, FilesOk, OpenOk, Tracks;
    AssignedExtends(at.mem.cat, q, id);
    var name := Trim(q.name);
    var c := Noted(Assign(at.mem.cat, name, TypeOfValue(q.value)).0, id, RecordOf(q, id).ts);
    if IsReadable(c) {
      ReadableBefore(at.mem.cat, c);
      AssignedFits(at, q, id);
    }
  }

  lemma AssignedRegisters(c: Catalog, r: Catalog, w: WalRecord, name: Name, vt: byte, c1: Catalog)
    requires Dense(c) && SamePins(c, r) && ValidName(name) && ValidRecord(w.rec) && w.rec.valueType == vt
    requires Assign(c, name, vt) == (c1, Ok(w.rec.id))
    requires w.name == if name in c.events then [] else name
    ensures Fits(r, w) && SamePins(c1, Register(r, w))
    ensures !c1.dirty ==> c1 == c
  {
    if name !in c.events {
      assert |c.events.Keys| == |r.events.Keys|;
    }
  }

  /** The log record of an accepted request. */
  ghost function EntryOf(at: Point, q: Request): WalRecord {
    var name := Trim(q.name);
    var given := Assign(at.mem.cat, name, TypeOfValue(q.value)).1;
    WalRecord(if name in at.mem.cat.events then [] else name, RecordOf(q, if given.Ok? then given.value else 0))
  }

  /** A call is rejected and changes nothing, or it logs its record and goes on to the flush decision. */
  lemma AddCases(cfg: Config, at: Point, q: Request)
    requires Dense(at.mem.cat)
    ensures var out := AddEvent(cfg, at, q);
            var name, w := Trim(q.name), EntryOf(at, q);
            var (c, given) := Assign(at.mem.cat, name, TypeOfValue(q.value));
            || (out.err.Some? && out.logged.None? && out.end == at && out.trail == [])
            || (&& name != [] && |name| <= MAX_NAME_LEN && |q.payload| <= cfg.maxPayload && given == Ok(w.rec.id)
                && out == AfterLog(cfg, LogRecord(cfg, at, Noted(c, w.rec.id, w.rec.ts), w), w.rec, q.aged))
  {
    hide AfterLog, LogRecord, Trim;
    var name := Trim(q.name);
    StaleKeepsCat(at.mem.cat, name, TypeOfValue(q.value));
  }

  lemma AddIsSound(cfg: Config, at: Point, mode: Mode, q: Request)
    requires cfg.Valid() && Inv(cfg, at) && Keeps(mode, at) && Meets(cfg, mode, at, Add(q))
    ensures Sound(cfg, at, mode, AddEvent(cfg, at, q))
    ensures AddEvent(cfg, at, q).err == None ==> AddEvent(cfg, at, q).logged.Some?
  {
    hide Carries, LogRecord, Trim, FilesOk, OpenOk, Tracks, DiskOk, CatOk, AllAbove, Continues, Dense;
    AddCases(cfg, at, q);
    var out, w := AddEvent(cfg, at, q), EntryOf(at, q);
    if out.logged.None? {
      CarriesStart(cfg, at, mode);
    } else {
      AssignedContinues(cfg, at, q, w.rec.id);
      var c := Assign(at.mem.cat, Trim(q.name), TypeOfValue(q.value)).0;
      if mode.text {
        AssignedReadable(at.mem.cat, q, w.rec.id);
      }
      AfterLogLogs(cfg, LogRecord(cfg, at, Noted(c, w.rec.id, w.rec.ts), w), w.rec, q.aged);
      LoggedIsSound(cfg, at, mode, Noted(c, w.rec.id, w.rec.ts), w, q.aged);
    }
  }

  lemma AfterLogLogs(cfg: Config, logged: Point, rec: Record, aged: bool)
    ensures AfterLog(cfg, logged, rec, aged).logged == Some(rec)
  {
  }

  /** A rejected call leaves the registry as it was: a name it would have added cannot be stale. */
  lemma StaleKeepsCat(c: Catalog, name: Name, vt: byte)
    requires Dense(c)
    ensures var (d, r) := Assign(c, name, vt);
            r.Err? || LastTs(d, r.value).Some? ==> d == c
  {
  }

  /** The registry has, or still takes, an event of this name and type. */
  predicate Takes(c: Catalog, name: Name, vt: byte) {
    if name in c.events then c.events[name].valueType == vt else |c.events| < MAX_EVENTS
  }

  /** The time is before the last one of that name. */
  predicate IsStale(c: Catalog, name: Name, ts: Timestamp) {
    name in c.events && c.events[name].last.Some? && ts < c.events[name].last.value
  }

  predicate MustFlush(cfg: Config, page: seq<Record>, aged: bool) {
    MustForceFlush(page, cfg.limits) || Full(page, cfg.limits, aged)
  }

  /**
   Exactly which events are logged, by what a caller can look up before the call: those with a name of 1 to 255 bytes
   once trimmed, a payload within the limit, a name and type the registry takes, and a time not before the name's
   last one. Any other call changes nothing at all. A logged event is acknowledged unless its page has to be written
   and is over the frame cap.
   */
  lemma LoggedIff(cfg: Config, at: Point, q: Request)
    requires Dense(at.mem.cat)
    ensures var out, name := AddEvent(cfg, at, q), Trim(q.name);
            && (out.logged.Some? <==>
                  && 0 < |name| <= MAX_NAME_LEN && |q.payload| <= cfg.maxPayload
                  && Takes(at.mem.cat, name, TypeOfValue(q.value))
                  && !IsStale(at.mem.cat, name, if q.ts == 0 then q.now else q.ts))
            && (out.logged.None? ==> out.err.Some? && out.end == at && out.trail == [])
            && (out.logged.Some? ==>
                  var rec := out.logged.value;
                  var page := OpenIn(at.mem, cfg.part(rec.ts)) + [rec];
                  out.err.None? <==> !MustFlush(cfg, page, q.aged) || PageFits(cfg, page))
  {
    hide MustForceFlush, Full, PageFits, FlushPage, MaybeReset, Trim;
    var name, vt := Trim(q.name), TypeOfValue(q.value);
    AddCases(cfg, at, q);
    var given := Assign(at.mem.cat, name, vt);
    if given.1.Ok? {
      LastOfAssigned(at.mem.cat, name, vt);
    }
  }

  lemma LastOfAssigned(c: Catalog, name: Name, vt: byte)
    requires Dense(c) && Assign(c, name, vt).1.Ok?
    ensures LastTs(Assign(c, name, vt).0, Assign(c, name, vt).1.value) == if name in c.events then c.events[name].last else None
  {
  }

  lemma LoggedAbove(cfg: Config, at: Point, c: Catalog, w: WalRecord)
    requires AllAbove(at) && IsAbove(w.rec.ts, Watermark(FramesIn(at.disk, cfg.part(w.rec.ts))))
    ensures AllAbove(LogRecord(cfg, at, c, w))
  {
    hide IsAbove, Watermark;
    var logged := LogRecord(cfg, at, c, w);
    forall p, r | r in OpenIn(logged.mem, p) ensures IsAbove(r.ts, Watermark(FramesIn(logged.disk, p))) {
      assert r in OpenIn(at.mem, p) || (p == cfg.part(w.rec.ts) && r == w.rec);
    }
  }

  lemma LoggedStored(cfg: Config, at: Point, c: Catalog, w: WalRecord, p: Part)
    requires Inv(cfg, at)
    ensures Stored(LogRecord(cfg, at, c, w), p) == Stored(at, p) + Entered(cfg, Some(w.rec), p)
  {
    hide DiskOk, CatOk, FilesOk, OpenOk, Stored, LogRecord, Dense, IsReadable;
    assert Tracks(cfg, at, p);
    LogTracks(cfg, at, c, w, p);
  }

  lemma LoggedCarries(cfg: Config, at: Point, mode: Mode, c: Catalog, w: WalRecord)
    requires Inv(cfg, at) && Continues(at, c, w)
    requires Keeps(mode, at) && (mode.text ==> IsReadable(c))
    requires mode.ordered ==> IsAbove(w.rec.ts, Watermark(FramesIn(at.disk, cfg.part(w.rec.ts))))
    ensures Carries(cfg, at, Some(w.rec), mode, LogRecord(cfg, at, c, w))
  {
    hide Inv, Fits, Dense, SamePins, Extends, AllAbove, Stored, Rebuilt, IsReadable;
    var logged := LogRecord(cfg, at, c, w);
    LogKeepsInv(cfg, at, c, w);
    forall p ensures Stored(logged, p) == Stored(at, p) + Entered(cfg, Some(w.rec), p) {
      LoggedStored(cfg, at, c, w, p);
    }
    if mode.ordered {
      LoggedAbove(cfg, at, c, w);
    }
  }

  lemma LoggedIsSound(cfg: Config, at: Point, mode: Mode, c: Catalog, w: WalRecord, aged: bool)
    requires Inv(cfg, at) && Continues(at, c, w)
    requires Keeps(mode, at) && (mode.text ==> IsReadable(c))
    requires mode.ordered ==> IsAbove(w.rec.ts, Watermark(FramesIn(at.disk, cfg.part(w.rec.ts))))
    ensures Sound(cfg, at, mode, AfterLog(cfg, LogRecord(cfg, at, c, w), w.rec, aged))
  {
    LoggedCarries(cfg, at, mode, c, w);
    hide *;
    AfterLogIsSound(cfg, at, mode, LogRecord(cfg, at, c, w), w.rec, aged);
  }

  lemma AfterLogIsSound(cfg: Config, at: Point, mode: Mode, logged: Point, rec: Record, aged: bool)
    requires Carries(cfg, at, Some(rec), mode, logged)
    ensures Sound(cfg, at, mode, AfterLog(cfg, logged, rec, aged))
  {
    hide Carries, MaybeReset, FlushPage, Full, MustForceFlush, PageFits;
    var p := cfg.part(rec.ts);
    if p in logged.mem.open {
      CarriesFlush(cfg, at, Some(rec), mode, logged, p);
      ResetIsSound(cfg, at, Some(rec), mode, FlushPage(logged, p));
    }
  }

  /** The operation logs no event at or below its partition's watermark. */
  ghost predicate InOrder(cfg: Config, at: Point, op: Op) {
    var logged := Perform(cfg, at, op).logged;
    logged.Some? ==> IsAbove(logged.value.ts, Watermark(FramesIn(at.disk, cfg.part(logged.value.ts))))
  }

  /** The name an event would be registered under is valid UTF-8. */
  predicate InText(op: Op) {
    op.Add? ==> IsText(Trim(op.q.name))
  }

  ghost predicate Meets(cfg: Config, mode: Mode, at: Point, op: Op) {
    (mode.ordered ==> InOrder(cfg, at, op)) && (mode.text ==> InText(op))
  }

  /** Every operation keeps the invariant at every durable write, and stores exactly one record more when it logs one. */
  lemma PerformIsSound(cfg: Config, at: Point, mode: Mode, op: Op)
    requires cfg.Valid() && Inv(cfg, at) && Keeps(mode, at) && Meets(cfg, mode, at, op)
    ensures Sound(cfg, at, mode, Perform(cfg, at, op))
  {
    match op
    case Add(q) => AddIsSound(cfg, at, mode, q);
    case Flush(order) => FlushAllIsSound(cfg, at, mode, order);
    case SaveCatalog => SaveIsSound(cfg, at, mode);
  }

  // ---------------------------------------------------------------- runs

  /** The database is up or down. `logged` is every record ever appended to the log, `acked` every event acknowledged. */
  datatype State =
    | Up(at: Point, logged: seq<Record>, acked: multiset<Record>)
    | Down(disk: Disk, logged: seq<Record>, acked: multiset<Record>)

  /** An operation that completes, one that a crash cuts after its first k durable writes, or a reopen. */
  datatype Label = Exec(op: Op) | Crash(op: Op, k: nat) | Restart

  ghost predicate Next(cfg: Config, s: State, l: Label, s': State) {
    match l
    case Exec(op) =>
      && s.Up?
      && var out := Perform(cfg, s.at, op);
         s' == Up(out.end, s.logged + Log(out), s.acked + if op.Add? && out.err.None? then multiset(Log(out)) else multiset{})
    case Crash(op, k) =>
      && s.Up?
      && var out := Perform(cfg, s.at, op);
         && k <= |out.trail|
         && s' == if k == 0 then Down(s.at.disk, s.logged, s.acked)
                  else Down(out.trail[k - 1].disk, s.logged + Log(out), s.acked)
    case Restart =>
      && s.Down?
      && Reopen(cfg, s.disk).Ok?
      && s' == Up(Point(s.disk, Reopen(cfg, s.disk).value), s.logged, s.acked)
  }

  ghost function Log(out: Outcome): seq<Record> {
    if out.logged.Some? then [out.logged.value] else []
  }

  const FRESH: State := Down(Disk([], [], map[]), [], multiset{})

  ghost predicate Run(cfg: Config, ss: seq<State>, ls: seq<Label>) {
    && |ss| == |ls| + 1
    && ss[0] == FRESH
    && forall i :: 0 <= i < |ls| ==> Next(cfg, ss[i], ls[i], ss[i + 1])
  }

  ghost predicate OrderedStep(cfg: Config, s: State, l: Label) {
    s.Up? && (l.Exec? || l.Crash?) ==> InOrder(cfg, s.at, l.op)
  }

  /** Every name an event of the run comes with is valid UTF-8. */
  predicate AllText(ls: seq<Label>) {
    forall i :: 0 <= i < |ls| && (ls[i].Exec? || ls[i].Crash?) ==> InText(ls[i].op)
  }

  /** Every event accepted into a partition is later than every frame already flushed there. */
  ghost predicate OrderedRun(cfg: Config, ss: seq<State>, ls: seq<Label>) {
    Run(cfg, ss, ls) && forall i :: 0 <= i < |ls| ==> OrderedStep(cfg, ss[i], ls[i])
  }

  /** A step that meets what is asked; only a run in text may reopen files that hold something. */
  ghost predicate StepMeets(cfg: Config, mode: Mode, s: State, l: Label) {
    && (s.Up? && (l.Exec? || l.Crash?) ==> Meets(cfg, mode, s.at, l.op))
    && (l.Restart? ==> mode.text || s == FRESH)
  }

  ghost predicate RunMeets(cfg: Config, mode: Mode, ss: seq<State>, ls: seq<Label>, i: nat) {
    Run(cfg, ss, ls) && i < |ss| && forall j :: 0 <= j < i ==> StepMeets(cfg, mode, ss[j], ls[j])
  }

  lemma TextMeets(cfg: Config, ss: seq<State>, ls: seq<Label>, i: nat)
    requires Run(cfg, ss, ls) && i < |ss| && AllText(ls)
    ensures RunMeets(cfg, IN_TEXT, ss, ls, i)
    ensures OrderedRun(cfg, ss, ls) ==> RunMeets(cfg, IN_ORDER, ss, ls, i)
  {
    hide Next, InOrder, InText, OrderedStep;
    forall j | 0 <= j < i
      ensures StepMeets(cfg, IN_TEXT, ss[j], ls[j])
      ensures OrderedStep(cfg, ss[j], ls[j]) ==> StepMeets(cfg, IN_ORDER, ss[j], ls[j])
    {
      TextStepMeets(cfg, ss[j], ls[j]);
    }
  }

  lemma TextStepMeets(cfg: Config, s: State, l: Label)
    requires (l.Exec? || l.Crash?) ==> InText(l.op)
    ensures StepMeets(cfg, IN_TEXT, s, l)
    ensures OrderedStep(cfg, s, l) ==> StepMeets(cfg, IN_ORDER, s, l)
  {
    hide InOrder, InText;
  }

  function InPart(cfg: Config, rs: seq<Record>, p: Part): seq<Record> {
    if rs == [] then []
    else
      var r := rs[|rs| - 1];
      InPart(cfg, rs[..|rs| - 1], p) + if cfg.part(r.ts) == p then [r] else []
  }

  lemma InPartLog(cfg: Config, rs: seq<Record>, out: Outcome, p: Part)
    ensures InPart(cfg, rs + Log(out), p) == InPart(cfg, rs, p) + Entered(cfg, out.logged, p)
  {
    if out.logged.Some? {
      assert (rs + Log(out))[..|rs|] == rs;
    } else {
      assert rs + Log(out) == rs;
    }
  }

  lemma {:induction false} InPartCount(cfg: Config, rs: seq<Record>, r: Record)
    ensures multiset(InPart(cfg, rs, cfg.part(r.ts)))[r] == multiset(rs)[r]
  {
    if rs != [] {
      var init, last := rs[..|rs| - 1], rs[|rs| - 1];
      assert rs == init + [last];
      InPartCount(cfg, init, r);
    }
  }

  /** What a point holds, against everything ever logged. */
  ghost predicate Accounts(cfg: Config, at: Point, logged: seq<Record>, mode: Mode) {
    && Inv(cfg, at)
    && (forall p :: multiset(Stored(at, p)) <= multiset(InPart(cfg, logged, p)))
    && Keeps(mode, at)
    && (mode.ordered ==> forall p :: Stored(at, p) == InPart(cfg, logged, p))
  }

  ghost predicate Safe(cfg: Config, s: State, mode: Mode) {
    && s.acked <= multiset(s.logged)
    && match s
       case Up(at, logged, _) => Accounts(cfg, at, logged, mode)
       case Down(disk, logged, _) => exists pt: Point :: pt.disk == disk && Accounts(cfg, pt, logged, mode)
  }

  lemma AccountsCarries(cfg: Config, at: Point, logged: seq<Record>, mode: Mode, out: Outcome, pt: Point)
    requires Accounts(cfg, at, logged, mode) && Carries(cfg, at, out.logged, mode, pt)
    ensures Accounts(cfg, pt, logged + Log(out), mode)
  {
    forall p
      ensures multiset(Stored(pt, p)) <= multiset(InPart(cfg, logged + Log(out), p))
      ensures mode.ordered ==> Stored(pt, p) == InPart(cfg, logged + Log(out), p)
    {
      InPartLog(cfg, logged, out, p);
      assert Stored(pt, p) == Stored(at, p) + Entered(cfg, out.logged, p);
      assert multiset(Stored(at, p)) <= multiset(InPart(cfg, logged, p));
    }
  }

  const FRESH_POINT: Point := Point(FRESH.disk, Mem(EMPTY, map[]))

  lemma FreshIsSafe(cfg: Config, mode: Mode)
    ensures Accounts(cfg, FRESH_POINT, [], mode) && IsReadable(FRESH_POINT.mem.cat) && Safe(cfg, FRESH, mode)
  {
    var pt := FRESH_POINT;
    assert Base(pt.disk) == EMPTY;
    assert Rebuilt(pt.disk) == EMPTY;
    assert Inv(cfg, pt);
    assert Accounts(cfg, pt, [], mode);
  }

  lemma RestartIsSafe(cfg: Config, pt: Point, logged: seq<Record>, mode: Mode)
    requires Accounts(cfg, pt, logged, mode) && IsReadable(pt.mem.cat)
    ensures Reopen(cfg, pt.disk).Ok?
    ensures Accounts(cfg, Point(pt.disk, Reopen(cfg, pt.disk).value), logged, mode)
  {
    ReopenRestores(cfg, pt);
    var at := Point(pt.disk, Reopen(cfg, pt.disk).value);
    forall p
      ensures multiset(Stored(at, p)) <= multiset(InPart(cfg, logged, p))
      ensures mode.ordered ==> Stored(at, p) == InPart(cfg, logged, p) && OpenIn(at.mem, p) == OpenIn(pt.mem, p)
    {
      var w := Watermark(FramesIn(pt.disk, p));
      assert Tracks(cfg, pt, p);
      AboveMembers(OpenIn(pt.mem, p), w);
      AboveIsAllIff(OpenIn(pt.mem, p), w);
      assert multiset(Stored(pt, p)) <= multiset(InPart(cfg, logged, p));
    }
    if mode.ordered {
      forall p, r | r in OpenIn(at.mem, p) ensures IsAbove(r.ts, Watermark(FramesIn(at.disk, p))) {
        assert r in OpenIn(pt.mem, p);
      }
    }
  }

  /** Whatever write of an operation a crash comes after, the files account for the same records. */
  lemma PerformAccounts(cfg: Config, at: Point, logged: seq<Record>, mode: Mode, op: Op)
    requires cfg.Valid() && Accounts(cfg, at, logged, mode) && Meets(cfg, mode, at, op)
    ensures var out := Perform(cfg, at, op);
            && Accounts(cfg, out.end, logged + Log(out), mode)
            && forall k :: 0 <= k < |out.trail| ==> Accounts(cfg, out.trail[k], logged + Log(out), mode)
  {
    hide Perform, Carries, Accounts, Inv, AllAbove, InOrder, Log;
    var out := Perform(cfg, at, op);
    AccountsGives(cfg, at, logged, mode);
    PerformIsSound(cfg, at, mode, op);
    AccountsCarries(cfg, at, logged, mode, out, out.end);
    forall k | 0 <= k < |out.trail| ensures Accounts(cfg, out.trail[k], logged + Log(out), mode) {
      AccountsCarries(cfg, at, logged, mode, out, out.trail[k]);
    }
  }

  lemma StepIsSafe(cfg: Config, s: State, l: Label, s': State, mode: Mode)
    requires cfg.Valid() && Safe(cfg, s, mode) && Next(cfg, s, l, s')
    requires StepMeets(cfg, mode, s, l)
    ensures Safe(cfg, s', mode)
  {
    hide Perform, Accounts, InOrder, Reopen;
    match l
    case Exec(op) =>
      PerformAccounts(cfg, s.at, s.logged, mode, op);
    case Crash(op, k) =>
      PerformAccounts(cfg, s.at, s.logged, mode, op);
      var pt := if k == 0 then s.at else Perform(cfg, s.at, op).trail[k - 1];
      assert pt.disk == s'.disk && Accounts(cfg, pt, s'.logged, mode);
    case Restart =>
      var pt := RestartPoint(cfg, s, mode);
      RestartIsSafe(cfg, pt, s.logged, mode);
  }

  /** The memory that went with the files a run in text left. */
  lemma RestartPoint(cfg: Config, s: State, mode: Mode) returns (pt: Point)
    requires Safe(cfg, s, mode) && s.Down? && (mode.text || s == FRESH)
    ensures pt.disk == s.disk && Accounts(cfg, pt, s.logged, mode) && IsReadable(pt.mem.cat)
  {
    hide Inv, AllAbove, IsReadable;
    if mode.text {
      pt :| pt.disk == s.disk && Accounts(cfg, pt, s.logged, mode);
    } else {
      FreshIsSafe(cfg, mode);
      pt := FRESH_POINT;
    }
  }

  lemma AccountsGives(cfg: Config, at: Point, logged: seq<Record>, mode: Mode)
    requires Accounts(cfg, at, logged, mode)
    ensures Inv(cfg, at) && Keeps(mode, at)
  {
  }

  lemma {:induction false} RunIsSafe(cfg: Config, ss: seq<State>, ls: seq<Label>, i: nat, mode: Mode)
    requires cfg.Valid() && RunMeets(cfg, mode, ss, ls, i)
    ensures Safe(cfg, ss[i], mode)
  {
    hide Safe, Next, StepMeets;
    if i == 0 {
      FreshIsSafe(cfg, mode);
    } else {
      RunIsSafe(cfg, ss, ls, i - 1, mode);
      StepIsSafe(cfg, ss[i - 1], ls[i - 1], ss[i], mode);
    }
  }

  // ---------------------------------------------------------------- what users of the log can rely on

  /** Replay never invents or repeats an event, and never fails, in any run whose names are valid UTF-8. */
  lemma AnyRunRecovers(cfg: Config, ss: seq<State>, ls: seq<Label>, i: nat)
    requires cfg.Valid() && Run(cfg, ss, ls) && i < |ss| && AllText(ls)
    ensures ss[i].Down? ==> Reopen(cfg, ss[i].disk).Ok?
    ensures ss[i].Up? ==>
              forall p :: multiset(Stored(ss[i].at, p)) <= multiset(InPart(cfg, ss[i].logged, p))
    ensures ss[i].acked <= multiset(ss[i].logged)
  {
    hide Inv, Run, Next, AllText, RunMeets, IsReadable, AllAbove;
    TextMeets(cfg, ss, ls, i);
    RunIsSafe(cfg, ss, ls, i, IN_TEXT);
    if ss[i].Down? {
      var pt := RestartPoint(cfg, ss[i], IN_TEXT);
      hide Accounts;
      RestartIsSafe(cfg, pt, ss[i].logged, IN_TEXT);
    }
  }

  /**
   In a run whose events arrive later than their partition's flushed frames, every partition stores exactly
   what was logged for it, once each and in order: nothing acknowledged is ever lost, and nothing else is
   stored except events whose log append completed before a crash.
   */
  lemma OrderedRunsLoseNothing(cfg: Config, ss: seq<State>, ls: seq<Label>, i: nat)
    requires cfg.Valid() && OrderedRun(cfg, ss, ls) && AllText(ls) && i < |ss| && ss[i].Up?
    ensures forall p :: Stored(ss[i].at, p) == InPart(cfg, ss[i].logged, p)
    ensures forall r :: ss[i].acked[r] <= multiset(Stored(ss[i].at, cfg.part(r.ts)))[r] == multiset(ss[i].logged)[r]
  {
    hide Inv, Run, Next, OrderedStep, AllText, RunMeets, Keeps;
    TextMeets(cfg, ss, ls, i) by { assert Run(cfg, ss, ls); }
    RunIsSafe(cfg, ss, ls, i, IN_ORDER);
    forall r ensures ss[i].acked[r] <= multiset(Stored(ss[i].at, cfg.part(r.ts)))[r] == multiset(ss[i].logged)[r] {
      InPartCount(cfg, ss[i].logged, r);
      assert Stored(ss[i].at, cfg.part(r.ts)) == InPart(cfg, ss[i].logged, cfg.part(r.ts));
    }
  }

  /**
   Exactly when a crash loses an open event: when the event is not later than a frame already flushed to its
   partition. A caller can check this against the partition's file before the call.
   */
  lemma CrashLosesIff(cfg: Config, ss: seq<State>, ls: seq<Label>, i: nat, p: Part)
    requires cfg.Valid() && Run(cfg, ss, ls) && AllText(ls) && i < |ss| && ss[i].Up?
    ensures var at := ss[i].at;
            && Reopen(cfg, at.disk).Ok?
            && var m := Reopen(cfg, at.disk).value;
               && (OpenIn(m, p) == OpenIn(at.mem, p)
                   <==> forall r :: r in OpenIn(at.mem, p) ==> IsAbove(r.ts, Watermark(FramesIn(at.disk, p))))
               && OpenIn(m, p) == Above(OpenIn(at.mem, p), Watermark(FramesIn(at.disk, p)))
  {
    hide Run, Next, AllText, RunMeets, IsReadable;
    TextMeets(cfg, ss, ls, i);
    RunIsSafe(cfg, ss, ls, i, IN_TEXT);
    var at := ss[i].at;
    ReopenRestores(cfg, at);
    assert Tracks(cfg, at, p);
    AboveIsAllIff(OpenIn(at.mem, p), Watermark(FramesIn(at.disk, p)));
  }

  /** An open event is always still in the log: the log is only truncated once no page is open. */
  lemma OpenEventsAreLogged(cfg: Config, ss: seq<State>, ls: seq<Label>, i: nat, p: Part)
    requires cfg.Valid() && Run(cfg, ss, ls) && AllText(ls) && i < |ss| && ss[i].Up?
    ensures multiset(OpenIn(ss[i].at.mem, p)) <= multiset(LoggedIn(cfg, ss[i].at.disk.wal, p))
  {
    hide Run, Next, AllText, RunMeets, IsReadable;
    TextMeets(cfg, ss, ls, i);
    RunIsSafe(cfg, ss, ls, i, IN_TEXT);
    assert Tracks(cfg, ss[i].at, p);
  }

  // ---------------------------------------------------------------- up to the first crash

  /** No crash among the first i steps. */
  ghost predicate Uncrashed(ls: seq<Label>, i: nat)
    requires i <= |ls|
  {
    forall j :: 0 <= j < i ==> !ls[j].Crash?
  }

  lemma OpensFresh(cfg: Config)
    ensures Reopen(cfg, FRESH.disk).Ok?
    ensures var at := Point(FRESH.disk, Reopen(cfg, FRESH.disk).value);
            forall p :: Stored(at, p) == []
  {
    FreshIsSafe(cfg, IN_ORDER);
    hide Inv, Reopen, IsReadable, AllAbove;
    RestartIsSafe(cfg, FRESH_POINT, [], IN_ORDER);
  }

  lemma ExecStores(cfg: Config, at: Point, logged: seq<Record>, op: Op)
    requires cfg.Valid() && Inv(cfg, at) && forall p :: Stored(at, p) == InPart(cfg, logged, p)
    ensures var out := Perform(cfg, at, op);
            forall p :: Stored(out.end, p) == InPart(cfg, logged + Log(out), p)
  {
    hide Inv, Perform, Stored, AllAbove, IsReadable;
    PerformIsSound(cfg, at, ANYHOW, op);
    var out := Perform(cfg, at, op);
    forall p ensures Stored(out.end, p) == InPart(cfg, logged + Log(out), p) {
      InPartLog(cfg, logged, out, p);
    }
  }

  lemma UncrashedDown(cfg: Config, ss: seq<State>, ls: seq<Label>, i: nat)
    requires Run(cfg, ss, ls) && i < |ss| && Uncrashed(ls, i)
    ensures ss[i].Up? || ss[i] == FRESH
  {
    hide Perform, Reopen;
    if i > 0 {
      assert Next(cfg, ss[i - 1], ls[i - 1], ss[i]);
    }
  }

  lemma UncrashedIsSafe(cfg: Config, ss: seq<State>, ls: seq<Label>, i: nat)
    requires cfg.Valid() && Run(cfg, ss, ls) && i < |ss| && Uncrashed(ls, i)
    ensures Safe(cfg, ss[i], ANYHOW)
  {
    hide Perform, Reopen, Safe, InOrder;
    forall j | 0 <= j < i ensures StepMeets(cfg, ANYHOW, ss[j], ls[j]) {
      assert Next(cfg, ss[j], ls[j], ss[j + 1]);
      UncrashedDown(cfg, ss, ls, j);
    }
    RunIsSafe(cfg, ss, ls, i, ANYHOW);
  }

  /** Until the first crash, whatever the order of times, every partition stores exactly what was logged for it. */
  lemma {:induction false} UncrashedStoresAll(cfg: Config, ss: seq<State>, ls: seq<Label>, i: nat)
    requires cfg.Valid() && Run(cfg, ss, ls) && i < |ss| && Uncrashed(ls, i)
    ensures if ss[i].Up? then forall p :: Stored(ss[i].at, p) == InPart(cfg, ss[i].logged, p) else ss[i] == FRESH
  {
    hide Perform, Reopen, Inv, Stored;
    if i > 0 {
      UncrashedStoresAll(cfg, ss, ls, i - 1);
      assert Next(cfg, ss[i - 1], ls[i - 1], ss[i]);
      if ls[i - 1].Exec? {
        UncrashedIsSafe(cfg, ss, ls, i - 1);
        ExecStores(cfg, ss[i - 1].at, ss[i - 1].logged, ls[i - 1].op);
      } else {
        OpensFresh(cfg);
      }
    }
  }

  /** The point a crash in op would leave after k durable writes. */
  ghost function Cut(cfg: Config, at: Point, op: Op, k: nat): (pt: Point)
    requires k <= |Perform(cfg, at, op).trail|
  {
    if k == 0 then at else Perform(cfg, at, op).trail[k - 1]
  }

  lemma CutKeeps(cfg: Config, at: Point, op: Op, k: nat)
    requires cfg.Valid() && Inv(cfg, at) && k <= |Perform(cfg, at, op).trail|
    ensures Inv(cfg, Cut(cfg, at, op, k))
    ensures forall p, r :: multiset(Stored(at, p))[r] <= multiset(Stored(Cut(cfg, at, op, k), p))[r]
  {
    hide Inv, Perform, AllAbove, IsReadable, Stored;
    PerformIsSound(cfg, at, ANYHOW, op);
    if k > 0 {
      assert Carries(cfg, at, Perform(cfg, at, op).logged, ANYHOW, Cut(cfg, at, op, k));
    }
  }

  /** What a point stores is in a flushed frame or in the log. */
  lemma StoredIsDurable(cfg: Config, pt: Point, r: Record)
    requires Inv(cfg, pt)
    ensures var p := cfg.part(r.ts);
            multiset(Stored(pt, p))[r] <= multiset(Flatten(FramesIn(pt.disk, p)))[r] + multiset(LoggedIn(cfg, pt.disk.wal, p))[r]
  {
    hide Above, Watermark, Survivors, LoggedIn, Flatten;
    assert Tracks(cfg, pt, cfg.part(r.ts));
  }

  /**
   Up to the first crash, whatever the order of times, every acknowledged event is in a flushed frame or still in
   the log at every durable write of the next operation, so wherever that crash comes.
   */
  lemma AcknowledgedIsDurable(cfg: Config, ss: seq<State>, ls: seq<Label>, i: nat, op: Op, k: nat, r: Record)
    requires cfg.Valid() && Run(cfg, ss, ls) && i < |ss| && Uncrashed(ls, i) && ss[i].Up?
    requires k <= |Perform(cfg, ss[i].at, op).trail|
    ensures var d, p := Cut(cfg, ss[i].at, op, k).disk, cfg.part(r.ts);
            ss[i].acked[r] <= multiset(Flatten(FramesIn(d, p)))[r] + multiset(LoggedIn(cfg, d.wal, p))[r]
  {
    hide Perform, Inv, Stored, Run, Uncrashed, Cut, LoggedIn, Flatten, Keeps;
    UncrashedIsSafe(cfg, ss, ls, i);
    UncrashedStoresAll(cfg, ss, ls, i);
    CutKeeps(cfg, ss[i].at, op, k);
    StoredIsDurable(cfg, Cut(cfg, ss[i].at, op, k), r);
    InPartCount(cfg, ss[i].logged, r);
    assert Stored(ss[i].at, cfg.part(r.ts)) == InPart(cfg, ss[i].logged, cfg.part(r.ts));
  }

  /**
   From the files of any point, when every name is valid UTF-8, reopening rebuilds exactly the log records above their partition's
   flushed maximum, and so puts no record on an open page that is also in a frame.
   */
  lemma ReopenedPagesAreNew(cfg: Config, pt: Point, p: Part)
    requires Inv(cfg, pt) && IsReadable(pt.mem.cat)
    ensures Reopen(cfg, pt.disk).Ok?
    ensures var m := Reopen(cfg, pt.disk).value;
            && OpenIn(m, p) == Survivors(cfg, pt.disk, p)
            && forall r :: r in OpenIn(m, p) ==> r !in Flatten(FramesIn(pt.disk, p))
  {
    ReopenRestores(cfg, pt);
    hide Inv, Reopen;
    var frames := FramesIn(pt.disk, p);
    AboveMembers(LoggedIn(cfg, pt.disk.wal, p), Watermark(frames));
    forall r | r in Survivors(cfg, pt.disk, p) ensures r !in Flatten(frames) {
      if r in Flatten(frames) {
        WatermarkCovers(frames, r);
        assert false;
      }
    }
  }

  /** The watermark is no earlier than any record of the frames. */
  lemma {:induction false} WatermarkCovers(frames: seq<seq<Record>>, r: Record)
    requires r in Flatten(frames)
    ensures !IsAbove(r.ts, Watermark(frames))
    decreases |frames|
  {
    hide MaxTs;
    var init, page := frames[..|frames| - 1], frames[|frames| - 1];
    assert frames == init + [page];
    FlattenSnoc(init, page);
    if r in page {
      BoundsAreTight(page);
      WatermarkSnoc(init, page);
    } else {
      WatermarkCovers(init, r);
    }
  }

  // ---------------------------------------------------------------- the registry over a run

  /** The pins a reopen from this state rebuilds. */
  ghost function Pins(s: State): Catalog {
    match s case Up(at, _, _) => Rebuilt(at.disk) case Down(d, _, _) => Rebuilt(d)
  }

  lemma InvPins(cfg: Config, at: Point)
    requires Inv(cfg, at) && IsReadable(at.mem.cat)
    ensures Dense(Rebuilt(at.disk)) && SamePins(at.mem.cat, Rebuilt(at.disk))
  {
    hide LogOrder, FilesOk, OpenOk, Tracks;
    DenseSamePins(at.mem.cat, Rebuilt(at.disk));
  }

  lemma CarriesPins(cfg: Config, from: Point, logged: Option<Record>, pt: Point)
    requires Inv(cfg, from) && IsReadable(from.mem.cat) && Carries(cfg, from, logged, IN_TEXT, pt)
    ensures Extends(Rebuilt(from.disk), Rebuilt(pt.disk))
  {
    hide Inv, Dense;
    InvPins(cfg, from);
    InvPins(cfg, pt);
    SamePinsExtends(from.mem.cat, Rebuilt(from.disk));
    SamePinsExtends(pt.mem.cat, Rebuilt(pt.disk));
    hide Extends, SamePins;
    ExtendsTransitive(Rebuilt(from.disk), from.mem.cat, pt.mem.cat);
    ExtendsTransitive(Rebuilt(from.disk), pt.mem.cat, Rebuilt(pt.disk));
  }

  lemma PerformGrowsPins(cfg: Config, at: Point, op: Op)
    requires cfg.Valid() && Inv(cfg, at) && IsReadable(at.mem.cat) && InText(op)
    ensures var out := Perform(cfg, at, op);
            && Extends(Rebuilt(at.disk), Rebuilt(out.end.disk))
            && forall k :: 0 <= k < |out.trail| ==> Extends(Rebuilt(at.disk), Rebuilt(out.trail[k].disk))
  {
    hide Perform, Inv, Carries, Extends, AllAbove, IsReadable, InText;
    var out := Perform(cfg, at, op);
    PerformIsSound(cfg, at, IN_TEXT, op);
    CarriesPins(cfg, at, out.logged, out.end);
    forall k | 0 <= k < |out.trail| ensures Extends(Rebuilt(at.disk), Rebuilt(out.trail[k].disk)) {
      CarriesPins(cfg, at, out.logged, out.trail[k]);
    }
  }

  lemma StepGrowsPins(cfg: Config, s: State, l: Label, s': State)
    requires cfg.Valid() && Safe(cfg, s, IN_TEXT) && Next(cfg, s, l, s')
    requires (l.Exec? || l.Crash?) ==> InText(l.op)
    ensures Extends(Pins(s), Pins(s'))
  {
    hide Perform, Inv, Reopen, Rebuilt, IsReadable, InText, AllAbove;
    match l
    case Exec(op) => PerformGrowsPins(cfg, s.at, op);
    case Crash(op, k) => PerformGrowsPins(cfg, s.at, op);
    case Restart =>
  }

  /**
   In a run whose names are valid UTF-8, once an id is pinned to a name and a type every later state, crashes
   included, pins it the same way.
   */
  lemma {:induction false} PinsAreForever(cfg: Config, ss: seq<State>, ls: seq<Label>, i: nat, j: nat)
    requires cfg.Valid() && Run(cfg, ss, ls) && AllText(ls) && i <= j < |ss|
    ensures Extends(Pins(ss[i]), Pins(ss[j]))
    decreases j
  {
    hide Safe, Next, InText;
    if i == j {
      assert Extends(Pins(ss[i]), Pins(ss[i]));
    } else {
      hide Pins, Extends;
      PinsAreForever(cfg, ss, ls, i, j - 1);
      TextMeets(cfg, ss, ls, j - 1);
      RunIsSafe(cfg, ss, ls, j - 1, IN_TEXT);
      StepGrowsPins(cfg, ss[j - 1], ls[j - 1], ss[j]);
      ExtendsTransitive(Pins(ss[i]), Pins(ss[j - 1]), Pins(ss[j]));
    }
  }

  /**
   At every crash point of every run whose names are valid UTF-8, reopening succeeds and the rebuilt registry has ids exactly 1..n, one
   name and type each, agrees with the files, and resolves every id in any frame or log record to the type
   its value was written with.
   */
  lemma RegistryRecovers(cfg: Config, ss: seq<State>, ls: seq<Label>, i: nat)
    requires cfg.Valid() && Run(cfg, ss, ls) && AllText(ls) && i < |ss| && ss[i].Down?
    ensures Reopen(cfg, ss[i].disk).Ok?
    ensures var m, d := Reopen(cfg, ss[i].disk).value, ss[i].disk;
            && Dense(m.cat) && SamePins(m.cat, Pins(ss[i]))
            && (forall p, k :: p in d.files && 0 <= k < |d.files[p]| ==> Typed(m.cat, d.files[p][k]))
            && (forall k :: 0 <= k < |d.wal| ==> TypeOf(m.cat, d.wal[k].rec.id) == Some(d.wal[k].rec.valueType))
  {
    hide Run, Next, AllText, RunMeets, IsReadable;
    TextMeets(cfg, ss, ls, i);
    RunIsSafe(cfg, ss, ls, i, IN_TEXT);
    var pt := RestartPoint(cfg, ss[i], IN_TEXT);
    AccountsGives(cfg, pt, ss[i].logged, IN_TEXT);
    hide Accounts, Inv, Typed, TypeOf;
    RegistryReopens(cfg, pt);
  }

  lemma RegistryReopens(cfg: Config, pt: Point)
    requires Inv(cfg, pt) && IsReadable(pt.mem.cat)
    ensures Reopen(cfg, pt.disk).Ok?
    ensures var c, d := Reopen(cfg, pt.disk).value.cat, pt.disk;
            && Dense(c) && SamePins(c, Rebuilt(d))
            && (forall p, k :: p in d.files && 0 <= k < |d.files[p]| ==> Typed(c, d.files[p][k]))
            && (forall k :: 0 <= k < |d.wal| ==> TypeOf(c, d.wal[k].rec.id) == Some(d.wal[k].rec.valueType))
  {
    ReopenRestores(cfg, pt);
    hide Reopen, Typed, TypeOf, DiskOk, FilesOk, OpenOk, Tracks, Rebuilt;
    var at := Point(pt.disk, Reopen(cfg, pt.disk).value);
    SamePinsReadable(pt.mem.cat, at.mem.cat);
    InvPins(cfg, at);
    RecoveredTypes(cfg, at);
  }

  lemma SamePinsReadable(c: Catalog, d: Catalog)
    requires SamePins(c, d) && IsReadable(c)
    ensures IsReadable(d)
  {
    SamePinsExtends(c, d);
    ReadableBefore(d, c);
  }

  lemma RecoveredTypes(cfg: Config, at: Point)
    requires Inv(cfg, at) && IsReadable(at.mem.cat)
    ensures forall p, k :: p in at.disk.files && 0 <= k < |at.disk.files[p]| ==> Typed(at.mem.cat, at.disk.files[p][k])
    ensures forall k :: 0 <= k < |at.disk.wal| ==>
              TypeOf(at.mem.cat, at.disk.wal[k].rec.id) == Some(at.disk.wal[k].rec.valueType)
  {
    forall p, k | p in at.disk.files && 0 <= k < |at.disk.files[p]| ensures Typed(at.mem.cat, at.disk.files[p][k]) {
      assert Belongs(cfg, at.mem.cat, p, at.disk.files[p][k]);
    }
    forall k | 0 <= k < |at.disk.wal|
      ensures TypeOf(at.mem.cat, at.disk.wal[k].rec.id) == Some(at.disk.wal[k].rec.valueType)
    {
      ReplayKnowsIds(Base(at.disk), at.disk.wal, k);
      SamePinsExtends(at.mem.cat, Rebuilt(at.disk));
      InvPins(cfg, at);
      DenseTypeOf(Rebuilt(at.disk), at.mem.cat, at.disk.wal[k].rec.id);
    }
  }
}
