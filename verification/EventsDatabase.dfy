/**
 The events layer of an open database, in place: ingest, flush, reset and replay over the byte contents of
 events.json's entries, the log file and the partition files. Each method is proved to do what the machine
 of module EventsEngine does, durable write by durable write.
 */
module EventsDatabase {
  import opened Prelude
  import opened Bytes
  import opened Names
  import opened Frames
  import opened Codec
  import opened EventsCatalog
  import opened EventsWal
  import opened EventsWalFile
  import opened EventsFrames
  import opened EventsPages
  import opened EventsFiles
  import opened EventsEngine
  import opened EventsInvariant
  import opened EventsRuns

  ghost function Disks(trail: seq<Point>): (ds: seq<Disk>)
    ensures |ds| == |trail|
  {
    seq(|trail|, i requires 0 <= i < |trail| => trail[i].disk)
  }

  class Database {
    const cfg: Config
    const cat: EventCatalog
    const wal: EventsWAL
    var snapshot: seq<DiskEntry>
    var files: map<Part, bytes>
    var openEventsDays: map<Part, EventsPage>

    ghost var logged: seq<WalRecord>                      // the records the log file holds
    ghost var frames: map<Part, seq<seq<Record>>>         // the pages the partition files hold
    ghost var writes: seq<Disk>                           // the durable files after each write so far

    ghost predicate PagesOk()
      reads this`openEventsDays, openEventsDays.Values
    {
      && (forall p :: p in openEventsDays ==> openEventsDays[p].Valid() && openEventsDays[p].limits == cfg.limits)
      && (forall p, q :: p in openEventsDays && q in openEventsDays && p != q ==> openEventsDays[p] != openEventsDays[q])
    }

    ghost predicate FilesHold()
      reads this`files, this`frames
    {
      && files.Keys == frames.Keys
      && (forall p :: p in files ==> files[p] == FileBytes(cfg.codec, frames[p]) && AllWritable(cfg.codec, frames[p]))
    }

    ghost predicate Valid()
      reads this, wal, openEventsDays.Values
    {
      && wal.Valid() && wal.blob == EncodeAll(logged)
      && FilesHold()
      && PagesOk()
    }

    ghost function Files(): Disk
      reads this
    {
      Disk(snapshot, logged, frames)
    }

    ghost function OpenPages(): map<Part, seq<Record>>
      requires PagesOk()
      reads this`openEventsDays, openEventsDays.Values
    {
      map p | p in openEventsDays :: openEventsDays[p].Records()
    }

    ghost function At(): Point
      requires PagesOk()
      reads this, cat, openEventsDays.Values
    {
      Point(Files(), Mem(cat.View(), OpenPages()))
    }

    /** Attaches to the files of a database, as a crash or a clean shutdown left them. */
    constructor (config: Config, entries: seq<DiskEntry>, log: bytes, partitions: map<Part, bytes>,
                 ghost records: seq<WalRecord>, ghost pages: map<Part, seq<seq<Record>>>)
      requires log == EncodeAll(records)
      requires partitions.Keys == pages.Keys
      requires forall p :: p in partitions ==>
                 partitions[p] == FileBytes(config.codec, pages[p]) && AllWritable(config.codec, pages[p])
      ensures Valid() && cfg == config && Files() == Disk(entries, records, pages)
      ensures OpenPages() == map[] && fresh(cat) && fresh(wal)
    {
      cfg := config;
      cat := new EventCatalog();
      wal := new EventsWAL(log);
      snapshot, files, openEventsDays := entries, partitions, map[];
      logged, frames, writes := records, pages, [];
    }

    // -------------------------------------------------------------- durable writes

    /** writeEventCatalogIfDirty. */
    method WriteEventCatalogIfDirty()
      requires Valid()
      modifies this`snapshot, this`writes, cat`dirty
      ensures Valid()
      ensures var out := Save(old(At()));
              At() == out.end && writes == old(writes) + Disks(out.trail)
    {
      hide FilesHold, PagesOk, OpenPages, EncodeAll, Entries, AsRead;
      if cat.dirty {
        var entries := cat.CatalogEntries();
        snapshot := AsRead(entries);
        cat.dirty := false;
        writes := writes + [Files()];
      }
    }

    method ResetWal()
      requires Valid()
      modifies this`logged, this`writes, wal
      ensures Valid()
      ensures var out := Truncate(old(At()));
              At() == out.end && writes == old(writes) + Disks(out.trail)
    {
      ghost var before := logged;
      LogEmptyIff(logged);
      if wal.bufferSize != 0 {
        wal.Reset();
        logged := [];
        writes := writes + [Files()];
      } else {
        wal.Reset();
      }
    }

    /** Whether some page still holds records. */
    method HasOpenRecords() returns (found: bool)
      requires PagesOk()
      ensures found == AnyOpen(At().mem)
    {
      var rest := openEventsDays.Keys;
      while rest != {}
        invariant rest <= openEventsDays.Keys
        invariant forall p :: p in openEventsDays && p !in rest ==> openEventsDays[p].Records() == []
        decreases |rest|
      {
        HasMember(rest);
        var p :| p in rest;
        if |openEventsDays[p].eventIDs| > 0 {
          assert OpenPages()[p] != [];
          return true;
        }
        rest := rest - {p};
      }
      return false;
    }

    /** maybeResetEventsWAL: the registry is saved before the log is truncated. */
    method MaybeResetEventsWAL()
      requires Valid()
      modifies this`snapshot, this`logged, this`writes, cat`dirty, wal
      ensures Valid()
      ensures var out := MaybeReset(old(At()));
              At() == out.end && writes == old(writes) + Disks(out.trail)
    {
      hide Save, Truncate, AnyOpen, FilesHold, EncodeAll;
      var found := HasOpenRecords();
      if found {
        return;
      }
      ghost var saved := Save(At());
      WriteEventCatalogIfDirty();
      ghost var reset := Truncate(At());
      ResetWal();
      EventDisksAppend(saved.trail, reset.trail);
    }

    /** Appends bytes to a partition file; they are the frame of the page that is now on disk. */
    method AppendFrame(p: Part, encoded: bytes, ghost rs: seq<Record>)
      requires Valid() && Writable(cfg.codec, rs) && encoded == Frame(cfg.codec, rs)
      modifies this`files, this`frames, this`writes
      ensures Valid()
      ensures frames == old(frames)[p := FramesIn(old(Files()), p) + [rs]]
      ensures writes == old(writes) + [Files()]
    {
      hide Frame, FileBytes, EncodeAll, Writable, AllWritable;
      EmptyFile(cfg.codec);
      ghost var pages := FramesIn(Files(), p);
      var content := if p in files then files[p] else [];
      FileGrows(cfg.codec, pages, rs);
      files := files[p := content + encoded];
      frames := frames[p := pages + [rs]];
      writes := writes + [Files()];
    }

    /** Appends a page's frame to its partition file and drops the page. */
    method FlushPageOf(p: Part) returns (err: Option<IngestError>)
      requires Valid() && p in openEventsDays
      requires 0 < |OpenPages()[p]| < TWO_32
      modifies this`files, this`frames, this`writes, this`openEventsDays
      ensures Valid()
      ensures openEventsDays == if err.None? then old(openEventsDays) - {p} else old(openEventsDays)
      ensures var page := old(At()).mem.open[p];
              if PageFits(cfg, page)
              then err == None && At() == FlushPage(old(At()), p) && writes == old(writes) + Disks([FlushPage(old(At()), p)])
              else err == Some(PageTooLarge) && At() == old(At()) && writes == old(writes)
    {
      hide FilesHold, Frame, EncodeAll, BitsOf, MinTs, MaxTs, PayloadBytes, Zip, Compressed;
      var page := openEventsDays[p];
      var encoded := page.EncodeInto(cfg.codec);
      if encoded.Err? {
        return Some(PageTooLarge);
      }
      AppendFrame(p, encoded.value, page.Records());
      openEventsDays := openEventsDays - {p};
      return None;
    }

    // -------------------------------------------------------------- ingest

    /** The partition's page, created when missing. */
    method OpenPage(p: Part, ts: Timestamp)
      requires PagesOk()
      modifies this`openEventsDays
      ensures PagesOk() && p in openEventsDays
      ensures p in old(openEventsDays) ==> openEventsDays == old(openEventsDays)
      ensures p !in old(openEventsDays) ==>
                fresh(openEventsDays[p]) && openEventsDays == old(openEventsDays)[p := openEventsDays[p]]
                && openEventsDays[p].Records() == []
    {
      hide BitsOf, MinTs, MaxTs, PayloadBytes, Zip;
      if p !in openEventsDays {
        var page := new EventsPage(ts, cfg.limits);
        openEventsDays := openEventsDays[p := page];
      }
    }

    /** Adds a record to a page that is already open. */
    method AddToPage(p: Part, rec: Record)
      requires PagesOk() && p in openEventsDays && AddCheck(rec).None?
      modifies openEventsDays[p]
      ensures PagesOk()
      ensures OpenPages() == old(OpenPages())[p := old(OpenPages())[p] + [rec]]
    {
      hide BitsOf, MinTs, MaxTs, PayloadBytes, Zip;
      ghost var before := OpenPages();
      var page := openEventsDays[p];
      var err := page.AddEvent(rec.id, rec.ts, rec.valueType, rec.raw, rec.payload);
      forall q | q in openEventsDays ensures openEventsDays[q].Valid() && openEventsDays[q].limits == cfg.limits {
      }
      forall q | q in openEventsDays && q != p ensures openEventsDays[q].Records() == before[q] {
      }
    }

    /** Puts a record on its partition's page. */
    method PutOnPage(p: Part, rec: Record)
      requires PagesOk() && AddCheck(rec).None?
      modifies this`openEventsDays, openEventsDays.Values
      ensures PagesOk() && fresh(openEventsDays.Values - old(openEventsDays.Values))
      ensures OpenPages() == old(OpenPages())[p := old(if p in OpenPages() then OpenPages()[p] else []) + [rec]]
    {
      hide AddCheck, EventsPage.Valid, EventsPage.Records;
      OpenPage(p, rec.ts);
      assert OpenPages() == old(OpenPages())[p := old(if p in OpenPages() then OpenPages()[p] else [])];
      AddToPage(p, rec);
    }

    /** The log append: the file grows by exactly one record. */
    method AppendToLog(w: WalRecord)
      requires Valid() && AppendCheck(w).None?
      modifies this`logged, this`writes, wal
      ensures Valid() && logged == old(logged) + [w]
      ensures writes == old(writes) + [Files()]
    {
      hide FilesHold, Encode;
      if w.name == [] {
        var err := wal.AppendEvent(w.rec);
      } else {
        var err := wal.AppendEventWithName(w.name, w.rec);
      }
      ConcatSnoc(Encode, logged, w);
      logged := logged + [w];
      writes := writes + [Files()];
    }

    /** Logs a record, then puts it on its page and notes its time. */
    method LogEvent(w: WalRecord)
      requires Valid() && AppendCheck(w).None? && AddCheck(w.rec).None?
      modifies this`logged, this`writes, this`openEventsDays, wal, cat, openEventsDays.Values
      ensures Valid() && fresh(openEventsDays.Values - old(openEventsDays.Values))
      ensures At() == LogRecord(cfg, old(At()), Noted(old(cat.View()), w.rec.id, w.rec.ts), w)
      ensures writes == old(writes) + Disks([At()])
    {
      hide FilesHold, PagesOk, OpenPages, EncodeAll, AddCheck, AppendCheck;
      AppendToLog(w);
      PutOnPage(cfg.part(w.rec.ts), w.rec);
      var noted := cat.UpdateLastByEventID(w.rec.id, w.rec.ts);
    }

    method MustFlush(p: Part, aged: bool) returns (flush: bool)
      requires PagesOk() && p in openEventsDays
      ensures var rs := OpenPages()[p];
              flush == (MustForceFlush(rs, cfg.limits) || Full(rs, cfg.limits, aged))
    {
      hide BitsOf, MinTs, MaxTs, PayloadBytes, Zip;
      var page := openEventsDays[p];
      flush := page.ForceFlush();
      if !flush {
        flush := page.IsFull(aged);
      }
    }

    /** The flush decision that ends an ingest. */
    method FlushIfFull(rec: Record, aged: bool) returns (err: Option<IngestError>)
      requires Valid() && cfg.part(rec.ts) in OpenPages()
      requires 0 < |OpenPages()[cfg.part(rec.ts)]| < TWO_32
      modifies this`snapshot, this`logged, this`files, this`frames, this`writes, this`openEventsDays, cat`dirty, wal
      ensures Valid() && openEventsDays.Values <= old(openEventsDays.Values)
      ensures var out := AfterLog(cfg, old(At()), rec, aged);
              err == out.err && At() == out.end && writes == old(writes) + Disks(out.trail[1..])
    {
      hide FilesHold, PagesOk, EncodeAll, Full, MustForceFlush, PageFits, FlushPage, MaybeReset, EventsPage.Valid;
      var p := cfg.part(rec.ts);
      ghost var start := At();
      assert start.mem.open[p] == OpenIn(start.mem, p);
      var flush := MustFlush(p, aged);
      if !flush {
        return None;
      }
      err := FlushPageOf(p);
      if err.Some? {
        return;
      }
      ghost var flushed := At();
      MaybeResetEventsWAL();
      EventDisksAppend([flushed], MaybeReset(flushed).trail);
      assert AfterLog(cfg, start, rec, aged).trail[1..] == [flushed] + MaybeReset(flushed).trail;
      return None;
    }

    /** An accepted event: the log append, the page, and the flush decision. */
    method LogAndFlush(w: WalRecord, aged: bool) returns (err: Option<IngestError>)
      requires Valid() && AppendCheck(w).None? && AddCheck(w.rec).None?
      requires |OpenIn(At().mem, cfg.part(w.rec.ts))| < TWO_32 - 1
      modifies this`snapshot, this`logged, this`files, this`frames, this`writes, this`openEventsDays
      modifies cat, wal, openEventsDays.Values
      ensures Valid() && fresh(openEventsDays.Values - old(openEventsDays.Values))
      ensures var logged := LogRecord(cfg, old(At()), Noted(old(cat.View()), w.rec.id, w.rec.ts), w);
              var out := AfterLog(cfg, logged, w.rec, aged);
              err == out.err && At() == out.end && writes == old(writes) + Disks(out.trail)
    {
      hide FilesHold, PagesOk, OpenPages, EncodeAll, AfterLog, LogRecord, AppendCheck, AddCheck;
      LogRecordGrows(cfg, At(), cat.View(), w);
      LogEvent(w);
      ghost var logged := At();
      assert OpenPages() == logged.mem.open;
      err := FlushIfFull(w.rec, aged);
      AfterLogStarts(cfg, logged, w.rec, aged);
      EventDisksAppend([logged], AfterLog(cfg, logged, w.rec, aged).trail[1..]);
    }

    /** Ingests one event: every error path, the log append, the page, the flush and the reset. */
    method AddEvent(q: Request) returns (err: Option<IngestError>)
      requires Valid() && cfg.Valid() && Dense(cat.View())
      requires forall p :: p in OpenPages() ==> |OpenPages()[p]| < TWO_32 - 1
      modifies this`snapshot, this`logged, this`files, this`frames, this`writes, this`openEventsDays
      modifies cat, wal, openEventsDays.Values
      ensures Valid() && fresh(openEventsDays.Values - old(openEventsDays.Values))
      ensures var out := EventsEngine.AddEvent(cfg, old(At()), q);
              err == out.err && At() == out.end && writes == old(writes) + Disks(out.trail)
    {
      hide FilesHold, PagesOk, OpenPages, EncodeAll, Trim, Dense, AfterLog, LogRecord, Assign;
      ghost var start := At();
      var name := Trim(q.name);
      if name == [] { return Some(EventNameEmpty); }
      if |name| > MAX_NAME_LEN { return Some(EventNameTooLong); }
      if |q.payload| > cfg.maxPayload { return Some(EventPayloadTooLarge); }
      var existsBefore := name in cat.events;
      var given := cat.GetOrAssignEventID(name, TypeOfValue(q.value));
      if given.Err? { return Some(Rejected(given.error)); }
      var rec := RecordOf(q, given.value);
      var last := LastTs(cat.View(), given.value);
      if last.Some? && rec.ts < last.value { return Some(Stale); }
      var w := WalRecord(if existsBefore then [] else name, rec);
      AcceptedRecord(cfg, start.mem.cat, q, given.value);
      LogRecordGrows(cfg, start, cat.View(), w);
      err := LogAndFlush(w, q.aged);
    }

    // -------------------------------------------------------------- shutdown

    /** Writes one page, or drops it when it is empty. */
    method FlushOrDrop(p: Part) returns (err: Option<IngestError>)
      requires Valid() && p in openEventsDays && |OpenPages()[p]| < TWO_32
      modifies this`files, this`frames, this`writes, this`openEventsDays
      ensures Valid()
      ensures openEventsDays == if err.None? then old(openEventsDays) - {p} else old(openEventsDays)
      ensures OpenPages() == if err.None? then old(OpenPages()) - {p} else old(OpenPages())
      ensures var out := FlushPages(cfg, old(At()), [p]);
              err == out.err && At() == out.end && writes == old(writes) + Disks(out.trail)
    {
      hide FilesHold, EncodeAll, PageFits;
      assert [p][..0] == [] && FlushPages(cfg, At(), []) == Outcome(None, None, At(), []);
      if |openEventsDays[p].eventIDs| == 0 {
        openEventsDays := openEventsDays - {p};
        return None;
      }
      err := FlushPageOf(p);
    }

    /** flushOpenEventsPages: the map is walked in some order, and the walk stops at the first failure. */
    method FlushOpenEventsPages() returns (err: Option<IngestError>, ghost order: seq<Part>)
      requires Valid()
      requires forall p :: p in OpenPages() ==> |OpenPages()[p]| < TWO_32
      modifies this`files, this`frames, this`writes, this`openEventsDays
      ensures Valid() && openEventsDays.Values <= old(openEventsDays.Values)
      ensures var out := FlushPages(cfg, old(At()), order);
              err == out.err && At() == out.end && writes == old(writes) + Disks(out.trail)
      ensures err.None? ==> openEventsDays == map[]
    {
      hide FilesHold, EncodeAll, PageFits, FlushPages, FlushPage, MaybeReset, EventsPage.Valid;
      ghost var start := At();
      order := [];
      NoPages(cfg, start);
      assert writes == old(writes) + Disks([]);
      var rest := openEventsDays.Keys;
      while rest != {}
        invariant Valid() && openEventsDays.Values <= old(openEventsDays.Values)
        invariant rest == openEventsDays.Keys
        invariant forall p :: p in OpenPages() ==> |OpenPages()[p]| < TWO_32
        invariant var out := FlushPages(cfg, start, order);
                  out.err == None && At() == out.end && writes == old(writes) + Disks(out.trail)
        decreases |rest|
      {
        HasMember(rest);
        var p :| p in rest;
        FlushPagesSnoc(cfg, start, order, p);
        EventDisksAppend(FlushPages(cfg, start, order).trail, FlushPages(cfg, At(), [p]).trail);
        order := order + [p];
        err := FlushOrDrop(p);
        if err.Some? {
          return;
        }
        rest := rest - {p};
      }
      return None, order;
    }

    /** The flush-then-reset of Close and of an explicit flush. */
    method FlushAndReset() returns (err: Option<IngestError>, ghost order: seq<Part>)
      requires Valid()
      requires forall p :: p in OpenPages() ==> |OpenPages()[p]| < TWO_32
      modifies this`snapshot, this`logged, this`files, this`frames, this`writes, this`openEventsDays, cat`dirty, wal
      ensures Valid()
      ensures var out := FlushAll(cfg, old(At()), order);
              err == out.err && At() == out.end && writes == old(writes) + Disks(out.trail)
      ensures err.None? ==> logged == [] && openEventsDays == map[]
    {
      hide FilesHold, PagesOk, EncodeAll, FlushPages, MaybeReset;
      err, order := FlushOpenEventsPages();
      if err.Some? {
        return;
      }
      ghost var flushed := At();
      MaybeResetEventsWAL();
      ResetEmpties(flushed);
      EventDisksAppend(FlushPages(cfg, old(At()), order).trail, MaybeReset(flushed).trail);
    }

    // -------------------------------------------------------------- reopening

    /** The replay watermark of a partition: the largest end time among its file's frames. */
    method ScanWatermark(p: Part) returns (w: Option<Timestamp>)
      requires FilesHold()
      ensures w == Watermark(FramesIn(Files(), p))
    {
      hide FileBytes, Walk, StatsOf, Infos, Watermark;
      if p !in files {
        NoFramesNoMark();
        return None;
      }
      WalkOfFile(cfg.codec, frames[p]);
      StatsGiveWatermark(cfg.codec, frames[p]);
      var scanned := WalkEventsFileHeaders(files[p]);
      var stats := scanned.value.1;
      w := if stats.frames > 0 then Some(stats.maxEnd) else None;
    }

    /** One turn of the replay loop: skip what is durable, put the rest back on its page. */
    method ReplayRecord(rec: Record)
      requires Valid() && AddCheck(rec).None?
      modifies this`openEventsDays, cat, openEventsDays.Values
      ensures Valid() && fresh(openEventsDays.Values - old(openEventsDays.Values))
      ensures var p := cfg.part(rec.ts);
              At().mem == if !IsAbove(rec.ts, Watermark(FramesIn(Files(), p))) then old(At()).mem
                          else Mem(Noted(old(cat.View()), rec.id, rec.ts), old(At()).mem.open[p := OpenIn(old(At()).mem, p) + [rec]])
    {
      hide PagesOk, OpenPages, EncodeAll, AddCheck, Watermark;
      var p := cfg.part(rec.ts);
      var w := ScanWatermark(p);
      if w.Some? && rec.ts <= w.value {
        return;
      }
      PutOnPage(p, rec);
      var noted := cat.UpdateLastByEventID(rec.id, rec.ts);
    }

    lemma NothingOpen()
      requires PagesOk() && openEventsDays == map[]
      ensures OpenPages() == map[]
    {
    }

    /** Loads events.json and replays the log behind the partitions' watermarks. */
    method Recover() returns (err: Option<ReopenError>)
      requires Valid() && openEventsDays == map[]
      modifies this`openEventsDays, cat
      ensures Valid() && fresh(openEventsDays.Values)
      ensures match Reopen(cfg, Files())
              case Ok(m) => err == None && At().mem == m
              case Err(e) => err == Some(e)
    {
      hide FilesHold, PagesOk, OpenPages, EncodeAll, Load, Scan, Rebuild, Noted, AddCheck;
      ghost var d := Files();
      LoadsWithin(snapshot);
      var loaded := cat.LoadFrom(snapshot);
      if loaded.Err? {
        return Some(BadSnapshot(loaded.error));
      }
      ScansWithin(wal.blob, cat.View());
      var recs := wal.RecordsWithCatalog(cat);
      if recs.Err? {
        return Some(BadLog(recs.error));
      }
      ghost var c := cat.View();
      var i := 0;
      NothingRebuilt(cfg, d, c);
      NothingOpen();
      while i < |recs.value|
        invariant 0 <= i <= |recs.value| && Valid() && fresh(openEventsDays.Values)
        invariant At().mem == Rebuild(cfg, d, c, recs.value[..i])
      {
        ReplayTurn(cfg, d, c, recs.value, i);
        ReplayRecord(recs.value[i].rec);
        i := i + 1;
      }
      assert recs.value[..i] == recs.value;
      return None;
    }
  }

  lemma AcceptedRecord(cfg: Config, c: Catalog, q: Request, id: nat)
    requires cfg.Valid() && Dense(c)
    requires Trim(q.name) != [] && |Trim(q.name)| <= MAX_NAME_LEN && |q.payload| <= cfg.maxPayload
    requires Assign(c, Trim(q.name), TypeOfValue(q.value)).1 == Ok(id)
    ensures AddCheck(RecordOf(q, id)).None?
    ensures AppendCheck(WalRecord(if Trim(q.name) in c.events then [] else Trim(q.name), RecordOf(q, id))).None?
  {
    hide Trim, Assign, Dense;
    AssignedExtends(c, q, id);
  }

  /** The logged point depends on the files and the open pages alone, and grows one page by one record. */
  lemma LogRecordGrows(cfg: Config, at: Point, withId: Catalog, w: WalRecord)
    ensures var c, p := Noted(withId, w.rec.id, w.rec.ts), cfg.part(w.rec.ts);
            var logged := LogRecord(cfg, at, c, w);
            && LogRecord(cfg, Point(at.disk, at.mem.(cat := withId)), c, w) == logged
            && p in logged.mem.open && |logged.mem.open[p]| == |OpenIn(at.mem, p)| + 1
  {
  }

  lemma AfterLogStarts(cfg: Config, logged: Point, rec: Record, aged: bool)
    ensures var trail := AfterLog(cfg, logged, rec, aged).trail;
            trail != [] && trail == [logged] + trail[1..]
  {
  }

  lemma ResetEmpties(at: Point)
    requires at.mem.open == map[]
    ensures MaybeReset(at).end.disk.wal == [] && MaybeReset(at).end.mem.open == map[]
  {
  }

  lemma NoFramesNoMark()
    ensures Watermark([]) == None
  {
  }

  lemma NothingRebuilt(cfg: Config, d: Disk, c: Catalog)
    ensures Rebuild(cfg, d, c, []) == Mem(c, map[])
  {
  }

  /** Every id is one a page takes, and every type is one of the three. */
  ghost predicate Within(c: Catalog) {
    && (forall k :: k in c.names ==> 1 <= k <= MAX_EVENTS)
    && (forall n :: n in c.events ==> ValidType(c.events[n].valueType))
  }

  lemma LoadsWithin(es: seq<DiskEntry>)
    ensures Load(es).Ok? ==> Within(Load(es).value)
  {
    if Load(es).Ok? {
      LoadsAllWithin(es);
    }
  }

  lemma {:induction false} LoadsAllWithin(es: seq<DiskEntry>)
    requires LoadAll(es).Ok?
    ensures Within(LoadAll(es).value)
  {
    if es != [] {
      LoadsAllWithin(es[..|es| - 1]);
    }
  }

  lemma DecodesWithin(body: bytes, c: Catalog)
    requires Within(c) && DecodeBody(body, c).Ok?
    ensures AddCheck(DecodeBody(body, c).value.0.rec).None? && Within(DecodeBody(body, c).value.1)
  {
    hide Trim, Uvarint, LEVal, Sub, TsVal;
  }

  /** No page refuses a record the log's bytes decode to, whatever the bytes. */
  lemma {:induction false} ScansWithin(b: bytes, c: Catalog)
    requires Within(c)
    ensures match Scan(b, c)
            case Scanned(ds, d, _) => forall i :: 0 <= i < |ds| ==> AddCheck(ds[i].rec).None?
            case Failed(_) => true
    decreases |b|
  {
    hide NextBody, DecodeBody, AddCheck, Within;
    if NextBody(b).Some? {
      var (body, used) := NextBody(b).value;
      if DecodeBody(body, c).Ok? {
        DecodesWithin(body, c);
        ScansWithin(b[used..], DecodeBody(body, c).value.1);
      }
    }
  }

  lemma ReplayTurn(cfg: Config, d: Disk, c: Catalog, ds: seq<Decoded>, i: nat)
    requires i < |ds|
    ensures var m, r := Rebuild(cfg, d, c, ds[..i]), ds[i].rec;
            var p := cfg.part(r.ts);
            Rebuild(cfg, d, c, ds[..i + 1])
            == if !IsAbove(r.ts, Watermark(FramesIn(d, p))) then m
               else Mem(Noted(m.cat, r.id, r.ts), m.open[p := OpenIn(m, p) + [r]])
  {
    assert ds[..i + 1][..i] == ds[..i];
  }

  lemma NoPages(cfg: Config, at: Point)
    ensures FlushPages(cfg, at, []) == Outcome(None, None, at, [])
  {
  }

  /** Flushing one more page continues from where the earlier ones left off. */
  lemma FlushPagesSnoc(cfg: Config, at: Point, order: seq<Part>, p: Part)
    requires FlushPages(cfg, at, order).err.None?
    ensures var prev := FlushPages(cfg, at, order);
            var one := FlushPages(cfg, prev.end, [p]);
            FlushPages(cfg, at, order + [p]) == prev.(err := one.err, end := one.end, trail := prev.trail + one.trail)
  {
    assert (order + [p])[..|order|] == order && [p][..0] == [];
    hide PageFits, FlushPage;
    NoPages(cfg, FlushPages(cfg, at, order).end);
  }

  lemma EventDisksAppend(a: seq<Point>, b: seq<Point>)
    ensures Disks(a + b) == Disks(a) + Disks(b)
  {
  }

  lemma LogEmptyIff(ws: seq<WalRecord>)
    ensures |EncodeAll(ws)| == 0 <==> ws == []
  {
    if ws != [] {
      var w := ws[|ws| - 1];
      assert |Encode(w)| > 12;
      assert |Concat(Encode, ws)| == |Concat(Encode, ws[..|ws| - 1])| + |Encode(w)|;
    }
  }

  lemma EmptyFile(codec: Codec)
    ensures FileBytes(codec, []) == [] && AllWritable(codec, [])
  {
  }

  lemma FileGrows(codec: Codec, pages: seq<seq<Record>>, rs: seq<Record>)
    requires AllWritable(codec, pages) && Writable(codec, rs)
    ensures FileBytes(codec, pages + [rs]) == FileBytes(codec, pages) + Frame(codec, rs)
    ensures AllWritable(codec, pages + [rs])
  {
    hide Frame;
    ConcatSnoc(FrameEncoder(codec), pages, rs);
  }
}
