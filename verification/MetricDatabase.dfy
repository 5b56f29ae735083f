/**
 The metric layer of an open database, in place: ingest, day sealing, the page flush and the log reset, over the
 byte contents of the partition files. Each method is proved to do what the machine of module MetricEngine does,
 durable write by durable write.
 */
module MetricDatabase {
  import opened Prelude
  import opened Bytes
  import opened Frames
  import opened Codec
  import opened Names
  import opened Samples
  import opened MetricRegistry
  import opened DataPages
  import opened Recompact
  import opened DataPageFile
  import opened DataFileStats
  import opened MetricEngine

  ghost function Disks(trail: seq<Point>): (ds: seq<Disk>)
    ensures |ds| == |trail|
  {
    seq(|trail|, i requires 0 <= i < |trail| => trail[i].disk)
  }

  lemma MetricDisksAppend(a: seq<Point>, b: seq<Point>)
    ensures Disks(a + b) == Disks(a) + Disks(b)
  {
  }

  /** No page is full but possibly that of the current day and of the days in `rest`. */
  ghost predicate NoneFull(cfg: Config, m: Mem, rest: set<Part>, today: Part, aged: set<Part>) {
    forall p :: p in m.open && p != today && p !in rest ==> OpenIn(m, p) == [] || !Full(OpenIn(m, p), cfg.limits, p in aged)
  }

  lemma NotLookedAt(cfg: Config, m: Mem, rest: set<Part>, today: Part, aged: set<Part>)
    requires rest == m.open.Keys
    ensures NoneFull(cfg, m, rest, today, aged)
  {
  }

  /** One day less to look at, whether its page is flushed or found not full. */
  lemma LookedAt(cfg: Config, at: Point, rest: set<Part>, day: Part, today: Part, aged: set<Part>)
    requires NoneFull(cfg, at.mem, rest, today, aged)
    ensures NoneFull(cfg, WriteDay(cfg, at, day).mem, rest - {day}, today, aged)
    ensures day == today || OpenIn(at.mem, day) == [] || !Full(OpenIn(at.mem, day), cfg.limits, day in aged) ==>
              NoneFull(cfg, at.mem, rest - {day}, today, aged)
  {
    hide Full, Listing;
    var m := WriteDay(cfg, at, day).mem;
    assert forall p :: p in m.open ==> p in at.mem.open && OpenIn(m, p) == OpenIn(at.mem, p);
  }

  lemma SameOpenNoneFull(cfg: Config, m: Mem, n: Mem, today: Part, aged: set<Part>)
    requires n.open == m.open
    ensures NoneFull(cfg, m, {}, today, aged) ==> NoneFull(cfg, n, {}, today, aged)
  {
    hide Full;
  }

  lemma ResetKeepsOpen(cfg: Config, at: Point)
    ensures MaybeReset(cfg, at).mem.open == at.mem.open
  {
    hide Listing;
  }

  class MetricCatalog {
    var metrics: map<Name, Metric>
    var idToName: map<nat, Name>
    var dirty: bool

    function View(): Registry
      reads this
    {
      Registry(metrics, idToName, dirty)
    }

    constructor ()
      ensures View() == NO_METRICS
    {
      metrics, idToName, dirty := map[], map[], false;
    }

    /** LoadCatalog: validates entry by entry; on an error nothing usable is returned. */
    method LoadFrom(es: seq<SavedMetric>) returns (err: Option<MetricError>)
      modifies this
      ensures match Load(es)
              case Ok(c) => err == None && View() == c
              case Err(e) => err == Some(e)
    {
      metrics, idToName, dirty := map[], map[], false;
      var i := 0;
      while i < |es|
        invariant 0 <= i <= |es|
        invariant Load(es[..i]) == Ok(View())
      {
        var e := es[i];
        LoadTurn(es, i);
        LoadStops(es, i + 1);
        if e.name == [] { return Some(EmptyName); }
        if e.id == 0 { return Some(BadId); }
        if e.valueType != INT32_SAMPLE && e.valueType != FLOAT32_SAMPLE { return Some(BadType); }
        if e.name in metrics { return Some(DuplicateName); }
        if e.id in idToName { return Some(DuplicateId); }
        metrics := metrics[e.name := Metric(e.id, e.valueType, None)];
        idToName := idToName[e.id := e.name];
        i := i + 1;
      }
      assert es[..i] == es;
      return None;
    }

    /** catalogEntriesLocked, with the names as they read from the file. */
    method CatalogEntries() returns (es: seq<SavedMetric>)
      ensures es == Listing(View())
    {
      var entries := metrics;
      var names := ListNames(entries.Keys);
      SortedNamesLists(entries.Keys);
      es := seq(|names|, i requires 0 <= i < |names| => SavedAs(names[i], entries[names[i]]));
    }

    method GetMetricID(name: Name, want: byte) returns (r: Result<nat, MetricError>)
      modifies this
      ensures (View(), r) == GetId(old(View()), name, want)
    {
      if name in metrics {
        if metrics[name].valueType != want { return Err(TypeMismatch); }
        return Ok(metrics[name].id);
      }
      if |metrics| >= MAX_METRICS { return Err(TooManyMetrics); }
      var newID := |metrics| + 1;
      metrics := metrics[name := Metric(newID, want, None)];
      idToName := idToName[newID := name];
      dirty := true;
      return Ok(newID);
    }

    method EnsureMetricEntry(name: Name, id: nat, valueType: byte) returns (err: Option<MetricError>)
      modifies this
      ensures match Ensure(old(View()), name, id, valueType)
              case Ok(c) => err == None && View() == c
              case Err(e) => err == Some(e) && View() == old(View())
    {
      hide IsBlank;
      if IsBlank(name) { return Some(EmptyName); }
      if id in idToName && idToName[id] != name { return Some(IdTaken); }
      if name in metrics {
        if metrics[name].id != id { return Some(IdMismatch); }
        if metrics[name].valueType != valueType { return Some(TypeMismatch); }
        idToName := idToName[id := name];
        return None;
      }
      metrics := metrics[name := Metric(id, valueType, None)];
      idToName := idToName[id := name];
      dirty := true;
      return None;
    }

    method UpdateLastByMetricID(id: nat, ts: Timestamp) returns (err: Option<MetricError>)
      modifies this
      ensures View() == NoteLast(old(View()), id, ts)
      ensures err.Some? <==> id !in old(idToName)
    {
      if id !in idToName { return Some(UnknownId); }
      var name := idToName[id];
      var entry := if name in metrics then metrics[name] else Metric(0, 0, None);
      if entry.last.None? || ts >= entry.last.value {
        metrics := metrics[name := entry.(last := Some(ts))];
      }
      return None;
    }
  }

  class Database {
    const cfg: Config
    const codec: Codec
    const cat: MetricCatalog
    var saved: seq<SavedMetric>
    var wal: seq<Logged>
    var files: map<Part, bytes>
    var openDays: map<Part, DataPage?>
    var sealedDays: set<Part>

    ghost var frames: map<Part, seq<Page>>     // the pages the partition files hold
    ghost var writes: seq<Disk>                // the durable state after each write so far

    /** Open pages are valid, hold samples, no more than a process can, and are distinct objects. */
    ghost predicate PagesOk()
      reads this`openDays, openDays.Values
    {
      && (forall p :: p in openDays && openDays[p] != null ==>
            && openDays[p].Valid() && openDays[p].Started() && openDays[p].limits == cfg.limits
            && 0 < |openDays[p].Samples()| <= MAX_HELD)
      && (forall p, q :: p in openDays && q in openDays && p != q && openDays[p] != null ==> openDays[p] != openDays[q])
    }

    ghost predicate FilesHold()
      reads this`files, this`frames
    {
      && files.Keys == frames.Keys
      && (forall p :: p in files ==> files[p] == FileBytes(codec, frames[p]) && AllStorable(codec, frames[p]))
    }

    ghost predicate Valid()
      reads this, openDays.Values
    {
      FilesHold() && PagesOk() && codec.Contained()
    }

    ghost function Durable(): Disk
      reads this`saved, this`wal, this`frames
    {
      Disk(saved, wal, frames)
    }

    /** The samples on a day's page; None for a day opened without one. */
    ghost function PageIn(p: Part): Option<Page>
      requires PagesOk() && p in openDays
      reads this`openDays, openDays.Values
    {
      if openDays[p] == null then None else Some(openDays[p].Samples())
    }

    ghost function OpenPages(): map<Part, Option<Page>>
      requires PagesOk()
      reads this`openDays, openDays.Values
    {
      map p | p in openDays :: PageIn(p)
    }

    ghost function At(): Point
      requires PagesOk()
      reads this, cat, openDays.Values
    {
      Point(Durable(), Mem(cat.View(), OpenPages(), sealedDays))
    }

    /** Attaches to the files of a database, as a crash or a clean shutdown left them. */
    constructor (config: Config, c: Codec, entries: seq<SavedMetric>, log: seq<Logged>, partitions: map<Part, bytes>,
                 ghost pages: map<Part, seq<Page>>)
      requires c.Contained() && partitions.Keys == pages.Keys
      requires forall p :: p in partitions ==> partitions[p] == FileBytes(c, pages[p]) && AllStorable(c, pages[p])
      ensures Valid() && cfg == config && codec == c && fresh(cat) && openDays == map[]
      ensures At() == Point(Disk(entries, log, pages), Mem(NO_METRICS, map[], {})) && writes == []
    {
      cfg, codec := config, c;
      cat := new MetricCatalog();
      saved, wal, files, openDays, sealedDays := entries, log, partitions, map[], {};
      frames, writes := pages, [];
    }

    // -------------------------------------------------------------- saving the registry

    /** WriteCatalog, when the registry has news. */
    method SaveCatalogIfDirty()
      requires PagesOk()
      modifies this`saved, this`writes, cat`dirty
      ensures PagesOk() && At() == SaveIfDirty(old(At()))
      ensures writes == old(writes) + Disks(SaveTrail(old(At())))
    {
      hide DataPage.Valid, DataPage.Started, DataPage.Samples, Listing;
      if cat.dirty {
        saved := cat.CatalogEntries();
        cat.dirty := false;
        writes := writes + [Durable()];
      }
    }

    // -------------------------------------------------------------- flushing and resetting

    /** Appends the page's frame to its partition file. */
    method WritePageToDailyFile(day: Part, page: DataPage)
      requires FilesHold() && codec.Contained() && page.Valid() && page.Started() && 0 < |page.Samples()| <= MAX_HELD
      modifies this`files, this`frames, this`writes
      ensures FilesHold()
      ensures frames == old(frames)[day := FramesIn(old(Durable()), day) + [page.Samples()]]
      ensures writes == old(writes) + [Durable()]
    {
      hide Frame, FrameFrom, FileBytes, Zip, InOrder, AllStorable;
      var frame := page.EncodeInto(codec);
      ghost var rs := page.Samples();
      var content := if day in files then files[day] else [];
      ghost var pages := FramesIn(Durable(), day);
      NoPages(codec);
      FileGrows(codec, pages, rs);
      files := files[day := content + frame];
      frames := frames[day := pages + [rs]];
      writes := writes + [Durable()];
    }

    /** The write, when the day has a page. */
    method WritePageOf(day: Part)
      requires Valid() && day in openDays
      modifies this`files, this`frames, this`writes
      ensures Valid()
      ensures OpenPages() == old(OpenPages())
      ensures var page := PageIn(day);
              if page.None? then frames == old(frames) && writes == old(writes)
              else frames == old(frames)[day := FramesIn(old(Durable()), day) + [page.value]] && writes == old(writes) + [Durable()]
    {
      hide FilesHold, DataPage.Valid, DataPage.Started, Zip;
      var page := openDays[day];
      if page != null {
        WritePageToDailyFile(day, page);
      }
    }

    method DropPage(day: Part)
      requires PagesOk()
      modifies this`openDays
      ensures PagesOk() && openDays == old(openDays) - {day}
      ensures OpenPages() == old(OpenPages()) - {day}
    {
      hide DataPage.Valid, DataPage.Started, DataPage.Samples;
      openDays := openDays - {day};
    }

    /** writePageToDailyFile and delete; a day without a page is only dropped. */
    method FlushAndDrop(day: Part)
      requires Valid() && day in openDays
      modifies this`files, this`frames, this`writes, this`openDays, this`saved, cat`dirty
      ensures Valid() && openDays == old(openDays) - {day}
      ensures At() == WriteDay(cfg, old(At()), day)
      ensures writes == old(writes) + Disks(WriteTrail(cfg, old(At()), day))
    {
      hide FilesHold, PagesOk, SaveIfDirty, SaveTrail;
      ghost var before := At();
      var page := openDays[day];
      OpenHas(day);
      WritePageOf(day);
      DropPage(day);
      ghost var flushed := At();
      assert flushed == FlushDay(before, day);
      if page != null && cfg.syncCatalog {
        SaveCatalogIfDirty();
        MetricDisksAppend([flushed], SaveTrail(flushed));
      }
    }

    method HasPage() returns (found: bool)
      requires PagesOk()
      ensures found == AnyPage(At().mem)
    {
      var rest := openDays.Keys;
      while rest != {}
        invariant rest <= openDays.Keys
        invariant forall p :: p in openDays && p !in rest ==> openDays[p] == null
        decreases |rest|
      {
        HasMember(rest);
        var p :| p in rest;
        if openDays[p] != null {
          assert OpenPages()[p].Some?;
          return true;
        }
        rest := rest - {p};
      }
      return false;
    }

    /** maybeResetWAL: the registry first, then the log. */
    method MaybeResetWAL()
      requires Valid()
      modifies this`wal, this`writes, this`saved, cat`dirty
      ensures Valid() && At() == MaybeReset(cfg, old(At()))
      ensures writes == old(writes) + Disks(ResetTrail(cfg, old(At())))
    {
      hide FilesHold, PagesOk, OpenPages, AnyPage, SaveIfDirty, SaveTrail;
      ghost var start := At();
      if !cfg.walEnabled { return; }
      var found := HasPage();
      if found { return; }
      SaveCatalogIfDirty();
      SaveKeepsLog(start);
      if wal != [] {
        wal := [];
        writes := writes + [Durable()];
        MetricDisksAppend(SaveTrail(start), [MaybeReset(cfg, start)]);
      }
    }

    // -------------------------------------------------------------- opening a day

    /** oldestOpenDay: the least key, found in one pass over the map. */
    method OldestOpenDay() returns (oldest: Part)
      requires PagesOk() && openDays != map[]
      ensures oldest in openDays && oldest == Oldest(OpenPages())
    {
      assert OpenPages().Keys == openDays.Keys;
      HasMember(openDays.Keys);
      var first :| first in openDays.Keys;
      oldest := first;
      var rest := openDays.Keys - {first};
      while rest != {}
        invariant rest <= openDays.Keys && oldest in openDays
        invariant forall p :: p in openDays && p !in rest ==> oldest <= p
        decreases |rest|
      {
        HasMember(rest);
        var p :| p in rest;
        if p < oldest {
          oldest := p;
        }
        rest := rest - {p};
      }
    }

    method Seal(day: Part)
      requires Valid() && day in openDays
      modifies this`files, this`frames, this`writes, this`openDays, this`wal, this`sealedDays, this`saved, cat`dirty
      ensures Valid() && openDays == old(openDays) - {day}
      ensures var out := SealDay(cfg, old(At()), day);
              At() == out.end && writes == old(writes) + Disks(out.trail)
    {
      hide FilesHold, PagesOk, OpenPages, WriteDay, WriteTrail, MaybeReset, ResetTrail;
      ghost var start := At();
      FlushAndDrop(day);
      ghost var flushed := At();
      MaybeResetWAL();
      sealedDays := sealedDays + {day};
      MetricDisksAppend(WriteTrail(cfg, start, day), ResetTrail(cfg, flushed));
    }

    lemma OpenKeys()
      requires PagesOk()
      ensures OpenPages().Keys == openDays.Keys && |OpenPages()| == |openDays|
    {
      assert |OpenPages()| == |OpenPages().Keys| && |openDays| == |openDays.Keys|;
    }

    lemma OpenHas(day: Part)
      requires PagesOk() && day in openDays
      ensures day in OpenPages() && OpenPages()[day] == PageIn(day)
      ensures PageIn(day).None? <==> openDays[day] == null
      ensures PageIn(day).Some? ==> PageIn(day).value != []
    {
    }

    /** Opens a day without a page. */
    method OpenWithoutPage(day: Part)
      requires PagesOk() && day !in openDays
      modifies this`openDays
      ensures PagesOk() && openDays == old(openDays)[day := null]
      ensures OpenPages() == old(OpenPages())[day := None]
    {
      hide DataPage.Valid, DataPage.Started, DataPage.Samples;
      openDays := openDays[day := null];
    }

    /** Seals the oldest day when no more days may be open. */
    method MakeRoom()
      requires Valid()
      modifies this`files, this`frames, this`writes, this`openDays, this`wal, this`sealedDays, this`saved, cat`dirty
      ensures Valid() && openDays.Keys <= old(openDays.Keys) && openDays.Values <= old(openDays.Values)
      ensures var start := old(At());
              var out := if |start.mem.open| >= cfg.MaxActive() then SealDay(cfg, start, Oldest(start.mem.open)) else Done(start, []);
              out.err.None? && At() == out.end && writes == old(writes) + Disks(out.trail)
    {
      hide FilesHold, PagesOk, OpenPages, SealDay;
      OpenKeys();
      if |openDays| >= cfg.MaxActive() {
        assert openDays != map[];
        SealSucceeds(cfg, At(), Oldest(OpenPages()));
        var oldest := OldestOpenDay();
        Seal(oldest);
      }
    }

    /** ensureDayOpen. */
    method EnsureDayOpen(day: Part) returns (err: Option<MetricError>)
      requires Valid()
      modifies this`files, this`frames, this`writes, this`openDays, this`wal, this`sealedDays, this`saved, cat`dirty
      ensures Valid() && openDays.Values <= old(openDays.Values) + {null}
      ensures var out := EnsureDay(cfg, old(At()), day);
              err == out.err && At() == out.end && writes == old(writes) + Disks(out.trail)
      ensures err.None? ==> day in openDays
    {
      hide FilesHold, PagesOk, OpenPages, SealDay;
      OpenKeys();
      if day in sealedDays { return Some(AlreadySealed); }
      if day in openDays { return None; }
      MakeRoom();
      OpenWithoutPage(day);
      return None;
    }

    // -------------------------------------------------------------- ingest

    /** addToOpenDay: the page refuses a sample that would take it back in time. */
    method AddToOpenDay(day: Part, s: Sample) returns (err: Option<MetricError>)
      requires PagesOk() && |OpenIn(At().mem, day)| < MAX_HELD
      modifies this`openDays, openDays.Values - {null}, cat
      ensures PagesOk() && fresh(openDays.Values - old(openDays.Values) - {null})
      ensures day in openDays
      ensures if Refuses(old(At()).mem, day, s.ts)
              then err == Some(OutOfOrder) && At() == old(At())
              else err == None && At() == Put(old(At()), day, s)
    {
      hide Zip, InOrder;
      err := PutOnPage(day, s);
      if err.Some? { return; }
      var noted := cat.UpdateLastByMetricID(s.id, s.ts);
    }

    /** The page half of addToOpenDay. */
    method PutOnPage(day: Part, s: Sample) returns (err: Option<MetricError>)
      requires PagesOk() && |OpenIn(At().mem, day)| < MAX_HELD
      modifies this`openDays, openDays.Values - {null}
      ensures PagesOk() && fresh(openDays.Values - old(openDays.Values) - {null})
      ensures day in openDays
      ensures var page := OpenIn(old(At()).mem, day);
              if page != [] && s.ts < EndOf(page)
              then err == Some(OutOfOrder) && OpenPages() == old(OpenPages())
              else err == None && OpenPages() == old(OpenPages())[day := Some(page + [s])]
    {
      hide Zip, InOrder;
      var page := if day in openDays then openDays[day] else null;
      if page == null {
        PutOnNewPage(day, s);
        assert [] + [s] == [s];
        return None;
      }
      err := PutOnOpenPage(day, s);
    }

    method PutOnNewPage(day: Part, s: Sample)
      requires PagesOk() && (day in openDays ==> openDays[day] == null)
      modifies this`openDays
      ensures PagesOk() && fresh(openDays.Values - old(openDays.Values))
      ensures day in openDays && OpenPages() == old(OpenPages())[day := Some([s])]
    {
      hide Zip, InOrder;
      var page := new DataPage(s.ts, cfg.limits);
      var e := page.AddSample(s);
      openDays := openDays[day := page];
      assert [] + [s] == [s];
    }

    method PutOnOpenPage(day: Part, s: Sample) returns (err: Option<MetricError>)
      requires PagesOk() && day in openDays && openDays[day] != null && |openDays[day].Samples()| < MAX_HELD
      modifies openDays[day]
      ensures PagesOk()
      ensures var page := OpenIn(old(At()).mem, day);
              if page != [] && s.ts < EndOf(page)
              then err == Some(OutOfOrder) && OpenPages() == old(OpenPages())
              else err == None && OpenPages() == old(OpenPages())[day := Some(page + [s])]
    {
      hide Zip, InOrder;
      var page := openDays[day];
      var e := page.AddSample(s);
      if e.Some? {
        assert page.Samples() == old(page.Samples());
        return Some(OutOfOrder);
      }
      return None;
    }

    /** The log append. */
    method AppendToLog(w: Option<Logged>)
      requires Valid()
      modifies this`wal, this`writes
      ensures Valid() && At() == AppendLog(old(At()), w)
      ensures writes == old(writes) + Disks(LogTrail(w, At()))
    {
      hide FilesHold, PagesOk, OpenPages;
      if w.Some? {
        wal := wal + [w.value];
        writes := writes + [Durable()];
      }
    }

    /** A page that is full is written and dropped. */
    method FlushIfFull(day: Part, aged: bool) returns (flushed: bool)
      requires Valid() && day in openDays
      modifies this`files, this`frames, this`writes, this`openDays, this`saved, cat`dirty
      ensures Valid()
      ensures var page := OpenIn(old(At()).mem, day);
              flushed == (page != [] && Full(page, cfg.limits, aged))
      ensures if !flushed
              then At() == old(At()) && writes == old(writes) && openDays == old(openDays)
              else At() == WriteDay(cfg, old(At()), day) && openDays == old(openDays) - {day}
                   && writes == old(writes) + Disks(WriteTrail(cfg, old(At()), day))
    {
      hide FilesHold, WriteDay, WriteTrail, Zip, InOrder;
      var page := openDays[day];
      if page == null { return false; }
      ClosesAtCapacity(cfg.limits, |page.Samples()|);
      flushed := page.IsFull(aged);
      if flushed {
        FlushAndDrop(day);
      }
    }

    /** flushEligibleOpenDays: every full page but the current day's, in the order the map is walked. */
    method FlushEligibleOpenDays(today: Part, aged: set<Part>) returns (ghost order: seq<Part>)
      requires Valid()
      modifies this`files, this`frames, this`writes, this`openDays, this`saved, cat`dirty
      ensures Valid() && openDays.Values <= old(openDays.Values)
      ensures today in old(openDays) ==> today in openDays && openDays[today] == old(openDays[today])
      ensures var out := FlushFull(cfg, old(At()), today, order, aged);
              out.err == None && At() == out.end && writes == old(writes) + Disks(out.trail)
      ensures NoneFull(cfg, At().mem, {}, today, aged)
    {
      hide FilesHold, PagesOk, OpenPages, WriteDay, WriteTrail, Full, NoneFull;
      ghost var start := At();
      order := [];
      var rest := openDays.Keys;
      OpenKeys();
      NotLookedAt(cfg, At().mem, rest, today, aged);
      assert writes == old(writes) + Disks([]);
      while rest != {}
        invariant Valid() && rest <= openDays.Keys && openDays.Values <= old(openDays.Values)
        invariant today in old(openDays) ==> today in openDays && openDays[today] == old(openDays[today])
        invariant var out := FlushFull(cfg, start, today, order, aged);
                  out.err == None && At() == out.end && writes == old(writes) + Disks(out.trail)
        invariant NoneFull(cfg, At().mem, rest, today, aged)
        decreases |rest|
      {
        HasMember(rest);
        var day :| day in rest;
        LookedAt(cfg, At(), rest, day, today, aged);
        FlushFullSnoc(cfg, start, today, order, aged, day);
        order := order + [day];
        if day != today {
          var flushed := FlushIfFull(day, day in aged);
        }
        rest := rest - {day};
      }
    }

    /** What follows a sample that is on its page: the other full pages, this one, the log reset. */
    method FlushAfterPut(q: Request) returns (ghost order: seq<Part>)
      requires Valid() && cfg.part(q.ts) in openDays && OpenIn(At().mem, cfg.part(q.ts)) != []
      modifies this`files, this`frames, this`writes, this`openDays, this`wal, this`saved, cat`dirty
      ensures Valid() && openDays.Values <= old(openDays.Values)
      ensures var out := AfterPut(cfg, old(At()), q.(order := order));
              out.err == None && At() == out.end && writes == old(writes) + Disks(out.trail)
      ensures NoneFull(cfg, At().mem, {}, cfg.part(q.ts), q.aged)
    {
      hide FilesHold, PagesOk, OpenPages, WriteDay, WriteTrail, Full, FlushFull, InOrder, NoneFull, MaybeReset, ResetTrail;
      var day := cfg.part(q.ts);
      ghost var put := At();
      order := FlushEligibleOpenDays(day, q.aged);
      ghost var others := At();
      FlushFullKeeps(cfg, put, day, order, q.aged);
      ghost var none: set<Part> := {};
      assert none - {day} == none;
      LookedAt(cfg, others, none, day, day, q.aged);
      var full := FlushIfFull(day, day in q.aged);
      if full {
        ghost var flushed := At();
        MaybeResetWAL();
        ResetKeepsOpen(cfg, flushed);
        SameOpenNoneFull(cfg, flushed.mem, At().mem, day, q.aged);
        AfterPutTrail(cfg, put, q.(order := order));
      }
    }

    /** The sample that its page takes. */
    method PutAndFlush(s: Sample, q: Request) returns (ghost order: seq<Part>)
      requires Valid() && s.ts == q.ts && !Refuses(At().mem, cfg.part(s.ts), s.ts)
      requires |OpenIn(At().mem, cfg.part(s.ts))| < MAX_HELD
      modifies this`files, this`frames, this`writes, this`openDays, this`wal, openDays.Values - {null}, cat, this`saved
      ensures Valid() && fresh(openDays.Values - old(openDays.Values) - {null})
      ensures var out := AfterPut(cfg, Put(old(At()), cfg.part(s.ts), s), q.(order := order));
              out.err == None && At() == out.end && writes == old(writes) + Disks(out.trail)
      ensures NoneFull(cfg, At().mem, {}, cfg.part(q.ts), q.aged)
    {
      hide FilesHold, PagesOk, OpenPages, AfterPut, Refuses, NoneFull;
      var err := AddToOpenDay(cfg.part(s.ts), s);
      order := FlushAfterPut(q);
    }

    /** The retry of a refused sample: the page is flushed, and a fresh one takes the sample. */
    method FlushAndPut(s: Sample, q: Request) returns (ghost order: seq<Part>)
      requires Valid() && s.ts == q.ts && cfg.part(s.ts) in openDays
      modifies this`files, this`frames, this`writes, this`openDays, this`wal, openDays.Values - {null}, cat, this`saved
      ensures Valid() && fresh(openDays.Values - old(openDays.Values) - {null})
      ensures var flushed := WriteDay(cfg, old(At()), cfg.part(s.ts));
              var out := AfterPut(cfg, Put(flushed, cfg.part(s.ts), s), q.(order := order));
              out.err == None && At() == out.end
              && writes == old(writes) + Disks(WriteTrail(cfg, old(At()), cfg.part(s.ts))) + Disks(out.trail)
      ensures NoneFull(cfg, At().mem, {}, cfg.part(q.ts), q.aged)
    {
      hide FilesHold, PagesOk, OpenPages, AfterPut, WriteDay, WriteTrail, Refuses, Put, NoneFull;
      var day := cfg.part(s.ts);
      ghost var start := At();
      FlushAndDrop(day);
      FlushedTakesAll(cfg, start, day, s.ts);
      order := PutAndFlush(s, q);
    }

    /** From the log append on; a refused sample is put on a fresh page when the caller allows it. */
    method LogAndPut(w: Option<Logged>, s: Sample, q: Request) returns (err: Option<MetricError>, ghost order: seq<Part>)
      requires Valid() && s.ts == q.ts && |OpenIn(At().mem, cfg.part(s.ts))| < MAX_HELD
      modifies this`files, this`frames, this`writes, this`openDays, this`wal, openDays.Values - {null}, cat, this`saved
      ensures Valid() && fresh(openDays.Values - old(openDays.Values) - {null})
      ensures var out := MetricEngine.LogAndPut(cfg, old(At()), w, s, q.(order := order));
              err == out.err && At() == out.end && writes == old(writes) + Disks(out.trail)
      ensures err.None? ==> NoneFull(cfg, At().mem, {}, cfg.part(q.ts), q.aged)
    {
      hide FilesHold, PagesOk, OpenPages, AfterPut, WriteDay, WriteTrail, MetricEngine.LogAndPut, Refuses, AppendLog, NoneFull, IsMetricName, IsSampleType;
      order := [];
      ghost var start := At();
      AppendToLog(w);
      ghost var logged := At();
      err := AddToOpenDay(cfg.part(s.ts), s);
      if err.None? {
        order := FlushAfterPut(q);
      } else if q.retry {
        order := FlushAndPut(s, q);
        err := None;
      }
      LogAndPutCases(cfg, start, w, s, q.(order := order));
    }

    /** The log record of a sample, when the log is in use. */
    method EntryOf(q: Request, known: bool, s: Sample) returns (w: Option<Logged>)
      requires s.ts == q.ts && s.raw == q.raw
      ensures w == EntryFor(cfg, known, q, s.id)
    {
      var useWAL := q.force || (cfg.walEnabled && q.recent);
      if !useWAL { return None; }
      return if known then Some(Nameless(s)) else Some(Naming(q.name, q.valueType, s));
    }

    /** addParsedSample: after a sample that is accepted, no other day's page is full. */
    method AddParsedSample(q: Request) returns (err: Option<MetricError>, ghost order: seq<Part>)
      requires Valid() && |OpenIn(At().mem, cfg.part(q.ts))| < MAX_HELD
      modifies this`files, this`frames, this`writes, this`openDays, this`wal, this`sealedDays, openDays.Values - {null}, cat, this`saved
      ensures Valid() && fresh(openDays.Values - old(openDays.Values) - {null})
      ensures var out := AddSample(cfg, old(At()), q.(order := order));
              err == out.err && At() == out.end && writes == old(writes) + Disks(out.trail)
      ensures err.None? ==> NoneFull(cfg, At().mem, {}, cfg.part(q.ts), q.aged)
    {
      hide FilesHold, PagesOk, OpenPages, OpenIn, AddSample, EnsureDay, GetId, MetricEngine.LogAndPut, NoneFull, EntryFor, IsMetricName, IsSampleType;
      order := [];
      ghost var start := At();
      AddSampleCases(cfg, start, q.(order := []));
      var known := q.name in cat.metrics;
      if known && cat.metrics[q.name].last.Some? && q.ts < cat.metrics[q.name].last.value {
        return Some(Stale), [];
      }
      err := EnsureDayOpen(cfg.part(q.ts));
      if err.Some? { return; }
      EnsureDayKeepsPage(cfg, start, cfg.part(q.ts));
      ghost var ready := At();
      var given := cat.GetMetricID(q.name, q.valueType);
      SamePage(ready.mem, At().mem, cfg.part(q.ts));
      if given.Err? { return Some(given.error), []; }
      var s := Sample(given.value, q.ts, q.raw);
      var w := EntryOf(q, known, s);
      err, order := LogAndPut(w, s, q);
      EntryIgnoresOrder(cfg, known, q, s.id, order);
      AddSampleCases(cfg, start, q.(order := order));
    }

    // -------------------------------------------------------------- shutdown

    /** One turn of the flush: a day without a page stays as it is. */
    method FlushPageOf(day: Part)
      requires Valid() && day in openDays
      modifies this`files, this`frames, this`writes, this`openDays, this`saved, cat`dirty
      ensures Valid()
      ensures openDays == if old(openDays[day]) == null then old(openDays) else old(openDays) - {day}
      ensures var page := OpenIn(old(At()).mem, day);
              At() == if page == [] then old(At()) else WriteDay(cfg, old(At()), day)
      ensures writes == old(writes) + Disks(WriteTrail(cfg, old(At()), day))
    {
      hide FilesHold, WriteDay, WriteTrail, Zip, InOrder;
      if openDays[day] == null {
        NoPageNoWrite(cfg, At(), day);
        return;
      }
      FlushAndDrop(day);
    }

    /** Writes every open page, in the order the map is walked. */
    method FlushOpenDays() returns (ghost order: seq<Part>)
      requires Valid()
      modifies this`files, this`frames, this`writes, this`openDays, this`saved, cat`dirty
      ensures Valid() && forall p :: p in openDays ==> openDays[p] == null
      ensures var out := FlushDays(cfg, old(At()), order);
              At() == out.end && writes == old(writes) + Disks(out.trail)
    {
      hide FilesHold, PagesOk, OpenPages, WriteDay, WriteTrail;
      ghost var start := At();
      order := [];
      var rest := openDays.Keys;
      assert writes == old(writes) + Disks([]);
      while rest != {}
        invariant Valid() && rest <= openDays.Keys
        invariant forall p :: p in openDays && p !in rest ==> openDays[p] == null
        invariant var out := FlushDays(cfg, start, order);
                  At() == out.end && writes == old(writes) + Disks(out.trail)
        decreases |rest|
      {
        HasMember(rest);
        var day :| day in rest;
        FlushDaysSnoc(cfg, start, order, day);
        NoPageNoWrite(cfg, At(), day);
        order := order + [day];
        FlushPageOf(day);
        rest := rest - {day};
      }
    }

    /** The flush of Close and flushDatabases: nothing stays on a page, the registry is saved, and an enabled log ends empty. */
    method FlushAll() returns (ghost order: seq<Part>)
      requires Valid()
      modifies this`files, this`frames, this`writes, this`openDays, this`wal, this`saved, cat`dirty
      ensures Valid() && !AnyPage(At().mem) && !cat.dirty && (cfg.walEnabled ==> wal == [])
      ensures var out := MetricEngine.FlushAll(cfg, old(At()), order);
              At() == out.end && writes == old(writes) + Disks(out.trail)
    {
      hide FilesHold, PagesOk, FlushDays, MaybeReset, ResetTrail, SaveIfDirty, SaveTrail;
      order := FlushOpenDays();
      ghost var flushed := At();
      assert !AnyPage(flushed.mem);
      ResetOf(cfg, flushed);
      MaybeResetWAL();
      ghost var reset := At();
      SaveKeepsLog(reset);
      SaveCatalogIfDirty();
      MetricDisksAppend(FlushDays(cfg, old(At()), order).trail, ResetTrail(cfg, flushed));
      MetricDisksAppend(FlushDays(cfg, old(At()), order).trail + ResetTrail(cfg, flushed), SaveTrail(reset));
    }

    // -------------------------------------------------------------- replay

    /** The watermark of a partition, scanned when the partition is met for the first time. */
    method ResolveWatermark(day: Part, marks: map<Part, Timestamp>) returns (mark: Timestamp)
      requires FilesHold()
      ensures mark == MarkOf(marks, Durable(), day)
    {
      hide FileBytes, AllStorable, ScanBounds, StatsOf, AllBounds, Mark;
      if day in marks { return marks[day]; }
      if day !in files {
        NoFramesNoMark();
        return -1;
      }
      ScanOfFile(codec, frames[day]);
      StatsGiveMark(frames[day]);
      var stats := ScanDataFileStats(files[day]);
      return if stats.value.frames == 0 then -1 else stats.value.maxEnd;
    }

    /** Registers a record's metric. */
    method NameRecord(w: Logged) returns (err: Option<MetricError>)
      modifies cat
      ensures match MetricEngine.NameRecord(old(cat.View()), w)
              case Ok(c) => err == None && cat.View() == c
              case Err(e) => err == Some(e) && cat.View() == old(cat.View())
    {
      if w.Naming? {
        err := cat.EnsureMetricEntry(w.name, w.sample.id, w.valueType);
        if err.Some? { return; }
      }
      if w.sample.id !in cat.idToName { return Some(UnknownId); }
      return None;
    }

    /** The retry of a refused record: the page is flushed, and its day opened again. */
    method ReopenAndPut(day: Part, s: Sample) returns (err: Option<MetricError>)
      requires Valid() && day in openDays
      modifies this`files, this`frames, this`writes, this`openDays, this`wal, this`sealedDays, openDays.Values - {null}, cat, this`saved
      ensures Valid() && fresh(openDays.Values - old(openDays.Values) - {null})
      ensures var flushed := WriteDay(cfg, old(At()), day);
              var again := EnsureDay(cfg, flushed, day);
              err == again.err && At() == (if err.Some? then again.end else Put(again.end, day, s))
              && writes == old(writes) + Disks(WriteTrail(cfg, old(At()), day)) + Disks(again.trail)
    {
      hide FilesHold, PagesOk, OpenPages, EnsureDay, WriteDay, WriteTrail, Refuses, Put;
      ghost var start := At();
      FlushAndDrop(day);
      ReopenedTakesAll(cfg, start, day, s.ts);
      err := EnsureDayOpen(day);
      if err.Some? { return; }
      var refused := AddToOpenDay(day, s);
    }

    /** Opens the record's day and puts it on its page; a page that refuses it is flushed first. */
    method Reinsert(s: Sample) returns (err: Option<MetricError>)
      requires Valid() && |OpenIn(At().mem, cfg.part(s.ts))| < MAX_HELD
      modifies this`files, this`frames, this`writes, this`openDays, this`wal, this`sealedDays, openDays.Values - {null}, cat, this`saved
      ensures Valid() && fresh(openDays.Values - old(openDays.Values) - {null})
      ensures var out := MetricEngine.Reinsert(cfg, old(At()), s);
              err == out.err && At() == out.end && writes == old(writes) + Disks(out.trail)
    {
      hide FilesHold, PagesOk, OpenPages, EnsureDay, WriteDay, WriteTrail, Refuses, Put;
      var day := cfg.part(s.ts);
      ghost var start := At();
      ReinsertCases(cfg, start, s);
      EnsureDayKeepsPage(cfg, start, day);
      err := EnsureDayOpen(day);
      if err.Some? { return; }
      ghost var ready := At();
      var refused := AddToOpenDay(day, s);
      if refused.None? { return None; }
      err := ReopenAndPut(day, s);
    }

    /** One turn of the replay loop. */
    method ReplayRecord(w: Logged, marks: map<Part, Timestamp>)
      returns (err: Option<MetricError>, marks': map<Part, Timestamp>)
      requires Valid() && |OpenIn(At().mem, cfg.part(w.sample.ts))| < MAX_HELD
      modifies this`files, this`frames, this`writes, this`openDays, this`wal, this`sealedDays, openDays.Values - {null}, cat, this`saved
      ensures Valid() && fresh(openDays.Values - old(openDays.Values) - {null})
      ensures var r := ReplayOne(cfg, Replayed(Done(old(At()), []), marks), w);
              err == r.out.err && At() == r.out.end && marks' == r.marks && writes == old(writes) + Disks(r.out.trail)
    {
      hide FilesHold, PagesOk, OpenPages, MetricEngine.Reinsert, MetricEngine.NameRecord, MarkOf;
      marks' := marks;
      ghost var start := At();
      err := NameRecord(w);
      if err.Some? { return; }
      var day := cfg.part(w.sample.ts);
      var mark := ResolveWatermark(day, marks);
      marks' := marks[day := mark];
      if mark >= 0 && w.sample.ts <= mark { return; }
      ghost var named := At();
      err := Reinsert(w.sample);
      EmptyFirst(MetricEngine.Reinsert(cfg, named, w.sample).trail);
    }

    /** The replay loop, over the records the log held when the database was opened. */
    method ReplayRecords() returns (err: Option<MetricError>)
      requires Valid() && openDays == map[] && sealedDays == {} && |wal| <= MAX_HELD
      modifies this`files, this`frames, this`writes, this`openDays, this`wal, this`sealedDays, cat, this`saved
      ensures Valid() && fresh(openDays.Values - {null})
      ensures var out := Replay(cfg, old(Durable()), old(cat.View()), old(wal)).out;
              err == out.err && At() == out.end && writes == old(writes) + Disks(out.trail)
    {
      hide FilesHold, PagesOk, OpenPages, ReplayOne, Replay;
      var recs := wal;
      var marks: map<Part, Timestamp> := map[];
      ghost var d, c := Durable(), cat.View();
      NothingOpen();
      NothingReplayed(cfg, d, c);
      assert recs[..0] == [];
      err := None;
      var i := 0;
      assert writes == old(writes) + Disks([]);
      while i < |recs|
        invariant 0 <= i <= |recs| && err == None && Valid() && fresh(openDays.Values - {null})
        invariant var r := Replay(cfg, d, c, recs[..i]);
                  r.out.err == None && At() == r.out.end && marks == r.marks && writes == old(writes) + Disks(r.out.trail)
      {
        ReplayTurn(cfg, d, c, recs, i);
        ReplayFits(cfg, d, c, recs[..i], cfg.part(recs[i].sample.ts));
        err, marks := ReplayRecord(recs[i], marks);
        if err.Some? {
          StopsAtError(cfg, d, c, recs, i + 1);
          return;
        }
        i := i + 1;
      }
      assert recs[..i] == recs;
    }

    /** RecordsWithCatalog: the type of every record that carries none is looked up before any name is registered. */
    method ResolveTypes() returns (ok: bool)
      ensures ok == Resolves(cat.View(), wal)
    {
      var i := 0;
      while i < |wal|
        invariant 0 <= i <= |wal|
        invariant forall k :: 0 <= k < i && wal[k].Nameless? ==> wal[k].sample.id in cat.idToName
      {
        if wal[i].Nameless? && wal[i].sample.id !in cat.idToName { return false; }
        i := i + 1;
      }
      return true;
    }

    /** Opening a database: catalog.json, then the log, replayed or, when it is disabled, truncated. */
    method Open() returns (err: Option<MetricError>)
      requires Valid() && openDays == map[] && sealedDays == {} && (cfg.walEnabled ==> |wal| <= MAX_HELD)
      modifies this`files, this`frames, this`writes, this`openDays, this`wal, this`sealedDays, cat, this`saved
      ensures Valid() && fresh(openDays.Values - {null})
      ensures var out := Reopen(cfg, old(Durable()));
              err == out.err && (err.None? ==> At() == out.end) && writes == old(writes) + Disks(out.trail)
    {
      hide FilesHold, PagesOk, OpenPages, Load, Replay, Resolves;
      ghost var d := Durable();
      NothingOpen();
      assert writes == old(writes) + Disks([]);
      err := cat.LoadFrom(saved);
      if err.Some? { return; }
      assert Reopen(cfg, d) == OpenFrom(cfg, d, cat.View());
      if !cfg.walEnabled {
        if wal != [] {
          wal := [];
          writes := writes + [Durable()];
        }
        return None;
      }
      var ok := ResolveTypes();
      if !ok { return Some(UnknownId); }
      err := ReplayRecords();
    }

    lemma NothingOpen()
      requires PagesOk() && openDays == map[]
      ensures OpenPages() == map[]
    {
    }
  }

  lemma SamePage(m: Mem, k: Mem, p: Part)
    requires m.open == k.open
    ensures OpenIn(m, p) == OpenIn(k, p)
  {
  }

  /** Opening a day leaves its page as it is. */
  lemma EnsureDayKeepsPage(cfg: Config, at: Point, p: Part)
    ensures OpenIn(EnsureDay(cfg, at, p).end.mem, p) == OpenIn(at.mem, p)
  {
    hide Listing;
  }

  /** No page holds more than n samples. */
  ghost predicate PagesWithin(m: Mem, n: nat) {
    forall p :: p in m.open ==> |OpenIn(m, p)| <= n
  }

  lemma WriteDayWithin(cfg: Config, at: Point, p: Part, n: nat)
    requires PagesWithin(at.mem, n)
    ensures PagesWithin(WriteDay(cfg, at, p).mem, n)
  {
    hide Listing;
    var m := WriteDay(cfg, at, p).mem;
    assert forall q :: q in m.open ==> q in at.mem.open && OpenIn(m, q) == OpenIn(at.mem, q);
  }

  lemma EnsureDayWithin(cfg: Config, at: Point, p: Part, n: nat)
    requires PagesWithin(at.mem, n)
    ensures PagesWithin(EnsureDay(cfg, at, p).end.mem, n)
  {
    hide Listing;
    var m := EnsureDay(cfg, at, p).end.mem;
    assert forall q :: q in m.open && q != p ==> q in at.mem.open && OpenIn(m, q) == OpenIn(at.mem, q);
    EnsureDayKeepsPage(cfg, at, p);
  }

  lemma PutWithin(at: Point, p: Part, s: Sample, n: nat)
    requires PagesWithin(at.mem, n)
    ensures PagesWithin(Put(at, p, s).mem, n + 1)
  {
    hide NoteLast;
    var m := Put(at, p, s).mem;
    assert forall q :: q in m.open && q != p ==> q in at.mem.open && OpenIn(m, q) == OpenIn(at.mem, q);
  }

  lemma WithinMore(m: Mem, n: nat)
    requires PagesWithin(m, n)
    ensures PagesWithin(m, n + 1)
  {
  }

  lemma WithinOfOpen(m: Mem, k: Mem, n: nat)
    requires PagesWithin(m, n) && k.open == m.open
    ensures PagesWithin(k, n)
  {
  }

  lemma ReinsertWithin(cfg: Config, at: Point, s: Sample, n: nat)
    requires PagesWithin(at.mem, n)
    ensures PagesWithin(MetricEngine.Reinsert(cfg, at, s).end.mem, n + 1)
  {
    hide WriteDay, EnsureDay, Put, Refuses, PagesWithin, WriteTrail;
    var p := cfg.part(s.ts);
    var ready := EnsureDay(cfg, at, p);
    EnsureDayWithin(cfg, at, p, n);
    WithinMore(ready.end.mem, n);
    PutWithin(ready.end, p, s, n);
    WriteDayWithin(cfg, ready.end, p, n);
    var flushed := WriteDay(cfg, ready.end, p);
    EnsureDayWithin(cfg, flushed, p, n);
    var again := EnsureDay(cfg, flushed, p);
    WithinMore(again.end.mem, n);
    PutWithin(again.end, p, s, n);
  }

  /** Replaying a record puts at most one sample on a page. */
  lemma ReplayOneWithin(cfg: Config, r: Replayed, w: Logged, n: nat)
    requires PagesWithin(r.out.end.mem, n)
    ensures PagesWithin(ReplayOne(cfg, r, w).out.end.mem, n + 1)
  {
    hide WriteDay, EnsureDay, Put, Refuses, MarkOf, PagesWithin, MetricEngine.NameRecord, WriteTrail;
    var p := cfg.part(w.sample.ts);
    var at := r.out.end;
    WithinMore(at.mem, n);
    match MetricEngine.NameRecord(at.mem.cat, w)
    case Err(_) =>
    case Ok(c) =>
      var named := at.(mem := at.mem.(cat := c));
      WithinOfOpen(at.mem, named.mem, n);
      WithinOfOpen(at.mem, named.mem, n + 1);
      ReinsertWithin(cfg, named, w.sample, n);
  }

  lemma NothingWithin(cfg: Config, d: Disk, c: Registry)
    ensures PagesWithin(Replay(cfg, d, c, []).out.end.mem, 0)
  {
  }

  lemma {:induction false} ReplayWithin(cfg: Config, d: Disk, c: Registry, ws: seq<Logged>)
    ensures PagesWithin(Replay(cfg, d, c, ws).out.end.mem, |ws|)
  {
    hide ReplayOne, PagesWithin;
    if ws == [] {
      NothingWithin(cfg, d, c);
    } else {
      var prev := Replay(cfg, d, c, ws[..|ws| - 1]);
      ReplayWithin(cfg, d, c, ws[..|ws| - 1]);
      WithinMore(prev.out.end.mem, |ws| - 1);
      ReplayOneWithin(cfg, prev, ws[|ws| - 1], |ws| - 1);
    }
  }

  lemma ReplayFits(cfg: Config, d: Disk, c: Registry, ws: seq<Logged>, p: Part)
    ensures |OpenIn(Replay(cfg, d, c, ws).out.end.mem, p)| <= |ws|
  {
    hide Replay;
    ReplayWithin(cfg, d, c, ws);
  }

  lemma EmptyFirst(ps: seq<Point>)
    ensures [] + ps == ps
  {
  }

  lemma NoFramesNoMark()
    ensures Mark([]) == -1
  {
  }

  lemma ResetOf(cfg: Config, at: Point)
    requires !AnyPage(at.mem)
    ensures var reset := MaybeReset(cfg, at);
            reset.mem.open == at.mem.open && (cfg.walEnabled ==> reset.disk.wal == [])
  {
    hide Listing;
  }

  lemma SaveKeepsLog(at: Point)
    ensures SaveIfDirty(at).disk.wal == at.disk.wal && SaveIfDirty(at).mem.open == at.mem.open
    ensures !SaveIfDirty(at).mem.cat.dirty
  {
    hide Listing;
  }

  lemma NoPageNoWrite(cfg: Config, at: Point, p: Part)
    ensures OpenIn(at.mem, p) == [] ==> WriteTrail(cfg, at, p) == []
  {
  }

  lemma FlushDaysSnoc(cfg: Config, at: Point, order: seq<Part>, p: Part)
    ensures var prev := FlushDays(cfg, at, order);
            FlushDays(cfg, at, order + [p])
            == if OpenIn(prev.end.mem, p) == [] then prev
               else prev.(end := WriteDay(cfg, prev.end, p), trail := prev.trail + WriteTrail(cfg, prev.end, p))
    ensures var prev := FlushDays(cfg, at, order);
            Disks(prev.trail + WriteTrail(cfg, prev.end, p)) == Disks(prev.trail) + Disks(WriteTrail(cfg, prev.end, p))
  {
    hide WriteDay, WriteTrail;
    assert (order + [p])[..|order|] == order;
    var prev := FlushDays(cfg, at, order);
    MetricDisksAppend(prev.trail, WriteTrail(cfg, prev.end, p));
  }

  /** Putting a logged record back, by what its day and its page do with it. */
  lemma ReinsertCases(cfg: Config, at: Point, s: Sample)
    ensures var p := cfg.part(s.ts);
            var out := MetricEngine.Reinsert(cfg, at, s);
            var ready := EnsureDay(cfg, at, p);
            var flushed := WriteDay(cfg, ready.end, p);
            var again := EnsureDay(cfg, flushed, p);
            ready.err.None? && Refuses(ready.end.mem, p, s.ts) ==>
              out.err == again.err
              && out.end == (if again.err.Some? then again.end else Put(again.end, p, s))
              && Disks(out.trail) == Disks(ready.trail) + Disks(WriteTrail(cfg, ready.end, p)) + Disks(again.trail)
  {
    hide WriteDay, WriteTrail, EnsureDay, Put;
    var p := cfg.part(s.ts);
    var ready := EnsureDay(cfg, at, p);
    var again := EnsureDay(cfg, WriteDay(cfg, ready.end, p), p);
    MetricDisksAppend(ready.trail, WriteTrail(cfg, ready.end, p));
    MetricDisksAppend(ready.trail + WriteTrail(cfg, ready.end, p), again.trail);
  }

  lemma ReopenedTakesAll(cfg: Config, at: Point, p: Part, ts: Timestamp)
    ensures var again := EnsureDay(cfg, WriteDay(cfg, at, p), p);
            again.err.None? ==> OpenIn(again.end.mem, p) == [] && !Refuses(again.end.mem, p, ts)
  {
    hide SealDay, Listing;
  }

  lemma NothingReplayed(cfg: Config, d: Disk, c: Registry)
    ensures Replay(cfg, d, c, []) == Replayed(Done(Point(d, Mem(c, map[], {})), []), map[])
  {
  }

  /** One more record continues from where the earlier ones left off. */
  lemma ReplayTurn(cfg: Config, d: Disk, c: Registry, ws: seq<Logged>, i: nat)
    requires i < |ws| && Replay(cfg, d, c, ws[..i]).out.err.None?
    ensures var prev := Replay(cfg, d, c, ws[..i]);
            var one := ReplayOne(cfg, Replayed(Done(prev.out.end, []), prev.marks), ws[i]);
            var next := Replay(cfg, d, c, ws[..i + 1]);
            next.out.err == one.out.err && next.out.end == one.out.end && next.marks == one.marks
            && Disks(next.out.trail) == Disks(prev.out.trail) + Disks(one.out.trail)
  {
    hide MetricEngine.Reinsert, MetricEngine.NameRecord, MarkOf;
    assert ws[..i + 1][..i] == ws[..i];
  }

  lemma {:induction false} StopsAtError(cfg: Config, d: Disk, c: Registry, ws: seq<Logged>, i: nat)
    requires i <= |ws| && Replay(cfg, d, c, ws[..i]).out.err.Some?
    ensures Replay(cfg, d, c, ws) == Replay(cfg, d, c, ws[..i])
    decreases |ws| - i
  {
    hide ReplayOne;
    if i == |ws| {
      assert ws[..i] == ws;
    } else {
      assert ws[..i + 1][..i] == ws[..i];
      StopsAtError(cfg, d, c, ws, i + 1);
    }
  }

  lemma EntryIgnoresOrder(cfg: Config, known: bool, q: Request, id: nat, order: seq<Part>)
    ensures EntryFor(cfg, known, q.(order := order), id) == EntryFor(cfg, known, q, id)
  {
  }

  /** A call of addParsedSample, by where it returns. */
  lemma AddSampleCases(cfg: Config, at: Point, q: Request)
    ensures var known := q.name in at.mem.cat.metrics;
            var out := AddSample(cfg, at, q);
            var ready := EnsureDay(cfg, at, cfg.part(q.ts));
            var (c, given) := GetId(ready.end.mem.cat, q.name, q.valueType);
            var named := ready.end.(mem := ready.end.mem.(cat := c));
            if known && at.mem.cat.metrics[q.name].last.Some? && q.ts < at.mem.cat.metrics[q.name].last.value
            then out == MetricEngine.Failed(Stale, at, [])
            else if ready.err.Some? then out == ready
            else if given.Err? then out.err == Some(given.error) && out.end == named && out.trail == ready.trail
            else
              var s := Sample(given.value, q.ts, q.raw);
              var rest := MetricEngine.LogAndPut(cfg, named, EntryFor(cfg, known, q, given.value), s, q);
              out.err == rest.err && out.end == rest.end && Disks(out.trail) == Disks(ready.trail) + Disks(rest.trail)
  {
    hide EnsureDay, GetId, MetricEngine.LogAndPut, EntryFor;
    var known := q.name in at.mem.cat.metrics;
    var ready := EnsureDay(cfg, at, cfg.part(q.ts));
    var (c, given) := GetId(ready.end.mem.cat, q.name, q.valueType);
    if given.Ok? {
      var s := Sample(given.value, q.ts, q.raw);
      var named := ready.end.(mem := ready.end.mem.(cat := c));
      MetricDisksAppend(ready.trail, MetricEngine.LogAndPut(cfg, named, EntryFor(cfg, known, q, given.value), s, q).trail);
    }
  }

  /** Logging a sample and putting it on its page, by what the page does with it. */
  lemma LogAndPutCases(cfg: Config, at: Point, w: Option<Logged>, s: Sample, q: Request)
    ensures var p := cfg.part(s.ts);
            var logged := AppendLog(at, w);
            var flushed := WriteDay(cfg, logged, p);
            var out := MetricEngine.LogAndPut(cfg, at, w, s, q);
            var direct, retried := AfterPut(cfg, Put(logged, p, s), q), AfterPut(cfg, Put(flushed, p, s), q);
            var logging := Disks(LogTrail(w, logged));
            if !Refuses(logged.mem, p, s.ts) then
              OpenIn(Put(logged, p, s).mem, p) != []
              && out.err == direct.err && out.end == direct.end && Disks(out.trail) == logging + Disks(direct.trail)
            else if q.retry then
              p in logged.mem.open && out.err == retried.err && out.end == retried.end
              && Disks(out.trail) == logging + Disks(WriteTrail(cfg, logged, p)) + Disks(retried.trail)
            else out.err == Some(OutOfOrder) && out.end == logged && Disks(out.trail) == logging
  {
    hide AfterPut, WriteDay, WriteTrail, NoteLast;
    var p := cfg.part(s.ts);
    var logged := AppendLog(at, w);
    var put := Put(logged, p, s);
    MetricDisksAppend(LogTrail(w, put), AfterPut(cfg, put, q).trail);
    MetricDisksAppend(LogTrail(w, logged), WriteTrail(cfg, logged, p));
    MetricDisksAppend(LogTrail(w, logged) + WriteTrail(cfg, logged, p), AfterPut(cfg, Put(WriteDay(cfg, logged, p), p, s), q).trail);
    SameDisks(w, put, logged);
  }

  lemma SameDisks(w: Option<Logged>, a: Point, b: Point)
    requires a.disk == b.disk
    ensures Disks(LogTrail(w, a)) == Disks(LogTrail(w, b))
  {
  }

  lemma FlushedTakesAll(cfg: Config, at: Point, p: Part, ts: Timestamp)
    ensures OpenIn(WriteDay(cfg, at, p).mem, p) == [] && !Refuses(WriteDay(cfg, at, p).mem, p, ts)
  {
    hide Listing;
  }

  lemma FlushFullSnoc(cfg: Config, at: Point, today: Part, order: seq<Part>, aged: set<Part>, p: Part)
    ensures var prev := FlushFull(cfg, at, today, order, aged);
            var page := OpenIn(prev.end.mem, p);
            FlushFull(cfg, at, today, order + [p], aged)
            == if p == today || page == [] || !Full(page, cfg.limits, p in aged) then prev
               else prev.(end := WriteDay(cfg, prev.end, p), trail := prev.trail + WriteTrail(cfg, prev.end, p))
    ensures var prev := FlushFull(cfg, at, today, order, aged);
            Disks(prev.trail + WriteTrail(cfg, prev.end, p)) == Disks(prev.trail) + Disks(WriteTrail(cfg, prev.end, p))
  {
    hide WriteDay, WriteTrail, Full;
    assert (order + [p])[..|order|] == order;
    var prev := FlushFull(cfg, at, today, order, aged);
    MetricDisksAppend(prev.trail, WriteTrail(cfg, prev.end, p));
  }

  /** The walk leaves the current day's page alone. */
  lemma {:induction false} FlushFullKeeps(cfg: Config, at: Point, today: Part, order: seq<Part>, aged: set<Part>)
    ensures OpenIn(FlushFull(cfg, at, today, order, aged).end.mem, today) == OpenIn(at.mem, today)
  {
    hide Full, Listing, WriteTrail;
    if order != [] {
      FlushFullKeeps(cfg, at, today, order[..|order| - 1], aged);
    }
  }

  lemma AfterPutTrail(cfg: Config, put: Point, q: Request)
    ensures var p := cfg.part(q.ts);
            var others := FlushFull(cfg, put, p, q.order, q.aged);
            var flushed := WriteDay(cfg, others.end, p);
            var trail := others.trail + WriteTrail(cfg, others.end, p) + ResetTrail(cfg, flushed);
            Full(OpenIn(put.mem, p), cfg.limits, p in q.aged) ==>
              AfterPut(cfg, put, q) == Done(MaybeReset(cfg, flushed), trail)
              && Disks(trail) == Disks(others.trail) + Disks(WriteTrail(cfg, others.end, p)) + Disks(ResetTrail(cfg, flushed))
  {
    hide Full, FlushFull, WriteDay, WriteTrail, MaybeReset, ResetTrail;
    var p := cfg.part(q.ts);
    var others := FlushFull(cfg, put, p, q.order, q.aged);
    var flushed := WriteDay(cfg, others.end, p);
    MetricDisksAppend(others.trail, WriteTrail(cfg, others.end, p));
    MetricDisksAppend(others.trail + WriteTrail(cfg, others.end, p), ResetTrail(cfg, flushed));
  }

  lemma SealSucceeds(cfg: Config, at: Point, p: Part)
    ensures SealDay(cfg, at, p).err.None?
  {
  }

  lemma NoPages(codec: Codec)
    ensures FileBytes(codec, []) == [] && AllStorable(codec, [])
  {
  }

  lemma FileGrows(codec: Codec, pages: seq<Page>, rs: Page)
    requires 0 < |rs| <= MAX_HELD && AllStorable(codec, pages) && codec.Contained()
    ensures FileBytes(codec, pages + [rs]) == FileBytes(codec, pages) + Frame(codec, rs)
    ensures AllStorable(codec, pages + [rs])
  {
    hide Frame, Concat, Payload;
    PayloadLength(rs);
    ConcatSnoc(FrameEncoder(codec), pages, rs);
  }

  lemma LoadTurn(es: seq<SavedMetric>, i: nat)
    requires i < |es| && Load(es[..i]).Ok?
    ensures Load(es[..i + 1]) == LoadEntry(Load(es[..i]).value, es[i])
  {
    assert es[..i + 1][..i] == es[..i];
  }

  lemma {:induction false} LoadStops(es: seq<SavedMetric>, i: nat)
    requires i <= |es|
    ensures Load(es[..i]).Err? ==> Load(es) == Load(es[..i])
    decreases |es| - i
  {
    if i == |es| {
      assert es[..i] == es;
    } else {
      assert es[..i + 1][..i] == es[..i];
      LoadStops(es, i + 1);
    }
  }
}
