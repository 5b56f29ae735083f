/** What every durable write of the events layer keeps, and what reopening rebuilds from it. */
module EventsInvariant {
  import opened Prelude
  import opened Bytes
  import opened Names
  import opened Frames
  import opened EventsCatalog
  import opened EventsWal
  import opened EventsFrames
  import opened EventsEngine

  // ---------------------------------------------------------------- the invariant

  /** The registry events.json loads to. */
  function Base(d: Disk): Catalog {
    match Load(d.snapshot) case Ok(c) => c case Err(_) => EMPTY
  }

  /** The registry that loading events.json and replaying the log rebuilds. */
  ghost function Rebuilt(d: Disk): Catalog {
    Replay(Base(d), d.wal)
  }

  /** events.json loads, its ids are 1..n, and the log continues from it in ingest order. */
  ghost predicate DiskOk(d: Disk) {
    Load(d.snapshot).Ok? && Dense(Base(d)) && !Base(d).dirty && LogOrder(Base(d), d.wal)
  }

  /** The records belong to partition p, and their ids are pinned in c to their types. */
  ghost predicate Belongs(cfg: Config, c: Catalog, p: Part, rs: seq<Record>) {
    rs != [] && Typed(c, rs) && forall r :: r in rs ==> cfg.part(r.ts) == p
  }

  ghost predicate FilesOk(cfg: Config, c: Catalog, files: map<Part, seq<seq<Record>>>) {
    forall p, i :: p in files && 0 <= i < |files[p]| ==> Belongs(cfg, c, p, files[p][i])
  }

  ghost predicate OpenOk(cfg: Config, m: Mem) {
    forall p :: p in m.open ==> Belongs(cfg, m.cat, p, m.open[p])
  }

  /** Replay of partition p would keep exactly the open records above the watermark, in order. */
  ghost predicate Tracks(cfg: Config, at: Point, p: Part) {
    && Above(OpenIn(at.mem, p), Watermark(FramesIn(at.disk, p))) == Survivors(cfg, at.disk, p)
    && multiset(OpenIn(at.mem, p)) <= multiset(LoggedIn(cfg, at.disk.wal, p))
  }

  /** The registry in memory is the one the files rebuild; when it is clean, events.json alone does. */
  ghost predicate CatOk(at: Point) {
    && SamePins(at.mem.cat, Rebuilt(at.disk))
    && (!at.mem.cat.dirty ==> SamePins(at.mem.cat, Base(at.disk)))
  }

  /** Once a name is not valid UTF-8 nothing is promised of events.json. */
  ghost predicate Inv(cfg: Config, at: Point) {
    && Dense(at.mem.cat)
    && FilesOk(cfg, at.mem.cat, at.disk.files)
    && OpenOk(cfg, at.mem)
    && (forall p :: Tracks(cfg, at, p))
    && (IsReadable(at.mem.cat) ==> DiskOk(at.disk) && CatOk(at))
  }

  /** Everything a partition stores: its frames in order, then its open page. */
  function Stored(at: Point, p: Part): seq<Record> {
    Flatten(FramesIn(at.disk, p)) + OpenIn(at.mem, p)
  }

  // ---------------------------------------------------------------- helpers

  lemma TypedExtends(c: Catalog, d: Catalog, rs: seq<Record>)
    requires Dense(c) && Extends(c, d) && Typed(c, rs)
    ensures Typed(d, rs)
  {
    forall r | r in rs ensures TypeOf(d, r.id) == Some(r.valueType) {
      DenseTypeOf(c, d, r.id);
    }
  }

  lemma FilesExtend(cfg: Config, c: Catalog, d: Catalog, files: map<Part, seq<seq<Record>>>)
    requires Dense(c) && Extends(c, d) && FilesOk(cfg, c, files)
    ensures FilesOk(cfg, d, files)
  {
    forall p, i | p in files && 0 <= i < |files[p]| ensures Belongs(cfg, d, p, files[p][i]) {
      assert Belongs(cfg, c, p, files[p][i]);
      TypedExtends(c, d, files[p][i]);
    }
  }

  lemma SamePinsExtends(c: Catalog, d: Catalog)
    requires SamePins(c, d)
    ensures Extends(c, d) && Extends(d, c) && SamePins(d, c)
  {
  }

  lemma SamePinsTransitive(a: Catalog, b: Catalog, c: Catalog)
    requires SamePins(a, b) && SamePins(b, c)
    ensures SamePins(a, c)
  {
  }

  lemma LoggedInSnoc(cfg: Config, ws: seq<WalRecord>, w: WalRecord, p: Part)
    ensures LoggedIn(cfg, ws + [w], p) == LoggedIn(cfg, ws, p) + if cfg.part(w.rec.ts) == p then [w.rec] else []
  {
    assert (ws + [w])[..|ws|] == ws;
  }

  lemma ReadableBefore(c: Catalog, d: Catalog)
    requires Extends(c, d) && IsReadable(d)
    ensures IsReadable(c)
  {
  }

  // ---------------------------------------------------------------- appending to the log

  lemma LogTracks(cfg: Config, at: Point, c: Catalog, w: WalRecord, p: Part)
    requires Tracks(cfg, at, p)
    ensures Tracks(cfg, LogRecord(cfg, at, c, w), p)
    ensures Stored(LogRecord(cfg, at, c, w), p) == Stored(at, p) + if cfg.part(w.rec.ts) == p then [w.rec] else []
  {
    hide Above, LoggedIn, Watermark, Flatten, IsAbove;
    var next := LogRecord(cfg, at, c, w);
    LoggedInSnoc(cfg, at.disk.wal, w, p);
    if cfg.part(w.rec.ts) == p {
      var wm := Watermark(FramesIn(at.disk, p));
      assert OpenIn(next.mem, p) == OpenIn(at.mem, p) + [w.rec];
      AboveSnoc(OpenIn(at.mem, p), w.rec, wm);
      AboveSnoc(LoggedIn(cfg, at.disk.wal, p), w.rec, wm);
    } else {
      assert LoggedIn(cfg, next.disk.wal, p) == LoggedIn(cfg, at.disk.wal, p);
    }
  }

  lemma LogOpenOk(cfg: Config, at: Point, c: Catalog, w: WalRecord)
    requires OpenOk(cfg, at.mem) && Dense(at.mem.cat) && Extends(at.mem.cat, c)
    requires ValidRecord(w.rec) && TypeOf(c, w.rec.id) == Some(w.rec.valueType)
    ensures OpenOk(cfg, LogRecord(cfg, at, c, w).mem)
  {
    var m := LogRecord(cfg, at, c, w).mem;
    var q := cfg.part(w.rec.ts);
    forall p | p in m.open ensures Belongs(cfg, c, p, m.open[p]) {
      if p in at.mem.open {
        assert Belongs(cfg, at.mem.cat, p, at.mem.open[p]);
        TypedExtends(at.mem.cat, c, at.mem.open[p]);
      }
      if p == q {
        assert m.open[p] == OpenIn(at.mem, p) + [w.rec];
      }
    }
  }

  /** The registry after a logged record is the one replaying the longer log rebuilds. */
  lemma LogCat(at: Point, c: Catalog, w: WalRecord)
    requires DiskOk(at.disk) && CatOk(at) && Fits(Rebuilt(at.disk), w)
    requires SamePins(c, Register(Rebuilt(at.disk), w))
    requires !c.dirty ==> !at.mem.cat.dirty && SamePins(c, at.mem.cat)
    ensures var d := at.disk.(wal := at.disk.wal + [w]);
            && DiskOk(d) && SamePins(c, Rebuilt(d)) && (!c.dirty ==> SamePins(c, Base(d)))
  {
    ReplaySnoc(Base(at.disk), at.disk.wal, w);
    if !c.dirty {
      SamePinsTransitive(c, at.mem.cat, Base(at.disk));
    }
  }

  /** The registry c continues `from`, and when its names can be saved, it continues what the files rebuild. */
  ghost predicate Continues(at: Point, c: Catalog, w: WalRecord) {
    && Dense(c) && Extends(at.mem.cat, c) && ValidRecord(w.rec) && TypeOf(c, w.rec.id) == Some(w.rec.valueType)
    && (IsReadable(c) ==>
          && Fits(Rebuilt(at.disk), w) && SamePins(c, Register(Rebuilt(at.disk), w))
          && (!c.dirty ==> !at.mem.cat.dirty && SamePins(c, at.mem.cat)))
  }

  /** Logging a record the registry continues with keeps the invariant, whatever the record's time. */
  lemma LogKeepsInv(cfg: Config, at: Point, c: Catalog, w: WalRecord)
    requires Inv(cfg, at) && Continues(at, c, w)
    ensures Inv(cfg, LogRecord(cfg, at, c, w))
  {
    hide Dense, Fits, SamePins, DiskOk, CatOk, Extends, Rebuilt, Base;
    var next := LogRecord(cfg, at, c, w);
    FilesExtend(cfg, at.mem.cat, c, at.disk.files);
    LogOpenOk(cfg, at, c, w);
    forall p ensures Tracks(cfg, next, p) {
      LogTracks(cfg, at, c, w, p);
    }
    if IsReadable(c) {
      ReadableBefore(at.mem.cat, c);
      LogCat(at, c, w);
      LoggedCatOk(at, c, w, next);
    }
  }

  lemma LoggedCatOk(at: Point, c: Catalog, w: WalRecord, next: Point)
    requires next.disk == at.disk.(wal := at.disk.wal + [w]) && next.mem.cat == c
    requires SamePins(c, Rebuilt(next.disk)) && (!c.dirty ==> SamePins(c, Base(next.disk)))
    ensures CatOk(next)
  {
  }

  // ---------------------------------------------------------------- flushing a page

  /** Raising the watermark over a whole page leaves replay nothing to put back. */
  lemma NothingAbove(logged: seq<Record>, page: seq<Record>, w: Option<Timestamp>, w': Option<Timestamp>)
    requires page != [] && Above(page, w) == Above(logged, w)
    requires w'.Some? && w'.value >= MaxTs(page) && (w.Some? ==> w'.value >= w.value)
    ensures Above(logged, w') == []
  {
    AboveMembers(logged, w);
    AboveMembers(logged, w');
    AboveMembers(page, w);
    BoundsAreTight(page);
    assert forall r :: r in Above(logged, w') ==> r in Above(logged, w);
    assert forall r :: r in Above(logged, w') ==> r in page;
    if Above(logged, w') != [] {
      HeadIsMember(Above(logged, w'));
      assert false;
    }
  }

  lemma FlushTracks(cfg: Config, at: Point, q: Part, p: Part)
    requires q in at.mem.open && at.mem.open[q] != [] && Tracks(cfg, at, p)
    ensures Tracks(cfg, FlushPage(at, q), p)
    ensures Stored(FlushPage(at, q), p) == Stored(at, p)
    ensures p != q ==> Watermark(FramesIn(FlushPage(at, q).disk, p)) == Watermark(FramesIn(at.disk, p))
  {
    hide LoggedIn, Flatten, Typed;
    var next := FlushPage(at, q);
    if p == q {
      var page := at.mem.open[q];
      WatermarkSnoc(FramesIn(at.disk, p), page);
      NothingAbove(LoggedIn(cfg, at.disk.wal, p), page, Watermark(FramesIn(at.disk, p)), Watermark(FramesIn(next.disk, p)));
      FlattenSnoc(FramesIn(at.disk, p), page);
    }
  }

  /** Sealing a page into a frame keeps the invariant and moves no record in or out of storage. */
  lemma FlushKeepsInv(cfg: Config, at: Point, q: Part)
    requires Inv(cfg, at) && q in at.mem.open
    ensures Inv(cfg, FlushPage(at, q))
    ensures forall p :: Stored(FlushPage(at, q), p) == Stored(at, p)
  {
    hide Tracks, Stored, Load, Replay, Dense, SamePins, LogOrder, Typed, IsReadable;
    var next := FlushPage(at, q);
    assert Belongs(cfg, at.mem.cat, q, at.mem.open[q]);
    forall p, i | p in next.disk.files && 0 <= i < |next.disk.files[p]|
      ensures Belongs(cfg, at.mem.cat, p, next.disk.files[p][i])
    {
      if i < |FramesIn(at.disk, p)| {
        assert next.disk.files[p][i] == at.disk.files[p][i];
      }
    }
    forall p ensures Tracks(cfg, next, p) && Stored(next, p) == Stored(at, p) {
      FlushTracks(cfg, at, q, p);
    }
  }

  // ---------------------------------------------------------------- saving and truncating

  /** Saving writes a registry from which the whole log replays to the same pins. */
  lemma SaveCat(d: Disk, c: Catalog)
    requires DiskOk(d) && Dense(c) && IsReadable(c) && SamePins(c, Rebuilt(d))
    ensures var d' := d.(snapshot := Snapshot(c));
            DiskOk(d') && SamePins(c, Base(d')) && Rebuilt(d') == Base(d')
  {
    LoadInvertsSnapshotIff(c);
    StrippedKeeps(c);
    var base := Stripped(c);
    SamePinsExtends(c, Rebuilt(d));
    SamePinsExtends(c, base);
    ExtendsTransitive(Rebuilt(d), c, base);
    ReplayFromLaterSnapshot(Base(d), d.wal, base);
  }

  lemma SaveCatOk(at: Point)
    requires Dense(at.mem.cat) && IsReadable(at.mem.cat) && DiskOk(at.disk) && CatOk(at) && at.mem.cat.dirty
    ensures DiskOk(Save(at).end.disk) && CatOk(Save(at).end)
  {
    var c := at.mem.cat;
    var c' := c.(dirty := false);
    SaveCat(at.disk, c);
    var d' := at.disk.(snapshot := Snapshot(c));
    assert Save(at).end == Point(d', at.mem.(cat := c'));
    assert SamePins(c', c);
    DenseSamePins(c, c');
    SamePinsTransitive(c', c, Base(d'));
  }

  lemma CleanKeepsPages(cfg: Config, at: Point, c: Catalog)
    requires FilesOk(cfg, at.mem.cat, at.disk.files) && OpenOk(cfg, at.mem) && Dense(at.mem.cat)
    requires c == at.mem.cat.(dirty := false)
    ensures FilesOk(cfg, c, at.disk.files) && OpenOk(cfg, at.mem.(cat := c)) && Dense(c)
    ensures IsReadable(c) <==> IsReadable(at.mem.cat)
  {
    forall p, i | p in at.disk.files && 0 <= i < |at.disk.files[p]| ensures Belongs(cfg, c, p, at.disk.files[p][i]) {
      assert Belongs(cfg, at.mem.cat, p, at.disk.files[p][i]);
    }
    forall p | p in at.mem.open ensures Belongs(cfg, c, p, at.mem.open[p]) {
      assert Belongs(cfg, at.mem.cat, p, at.mem.open[p]);
    }
  }

  /** Saving the registry at any moment keeps the invariant. */
  lemma SaveKeepsInv(cfg: Config, at: Point)
    requires Inv(cfg, at)
    ensures var s := Save(at);
            && Inv(cfg, s.end) && !s.end.mem.cat.dirty
            && s.end.mem.open == at.mem.open && s.end.disk.files == at.disk.files && s.end.disk.wal == at.disk.wal
  {
    hide DiskOk, CatOk, FilesOk, OpenOk, Snapshot, Dense, IsReadable;
    if at.mem.cat.dirty {
      var next := Save(at).end;
      CleanKeepsPages(cfg, at, next.mem.cat);
      if IsReadable(at.mem.cat) {
        SaveCatOk(at);
      }
      forall p ensures Tracks(cfg, next, p) {
        assert Tracks(cfg, at, p);
      }
    }
  }

  lemma TruncateKeepsInv(cfg: Config, at: Point)
    requires Inv(cfg, at) && !at.mem.cat.dirty && at.mem.open == map[]
    ensures Inv(cfg, Truncate(at).end)
    ensures Truncate(at).end.mem == at.mem && Truncate(at).end.disk.files == at.disk.files
  {
    hide Dense, IsReadable, Load;
    var next := Truncate(at).end;
    if next != at {
      assert Rebuilt(next.disk) == Base(at.disk);
      forall p ensures Tracks(cfg, next, p) {
        assert Tracks(cfg, at, p);
      }
    }
  }

  // ---------------------------------------------------------------- reopening

  /** A registry that replay left clean is the one it started from. */
  lemma {:induction false} CleanReplay(c: Catalog, ws: seq<WalRecord>)
    requires !Replay(c, ws).dirty
    ensures Replay(c, ws) == c
  {
    if ws != [] {
      CleanReplay(c, ws[..|ws| - 1]);
    }
  }

  lemma {:induction false} ResolvedRecords(c: Catalog, ws: seq<WalRecord>, i: nat)
    requires i < |ws|
    ensures Resolved(c, ws)[i].rec == ws[i].rec
    decreases |ws|
  {
    if i < |ws| - 1 {
      ResolvedRecords(c, ws[..|ws| - 1], i);
    }
  }

  /** The scan of the log's bytes, in terms of the log's records. */
  lemma ScanOfLog(d: Disk)
    requires DiskOk(d)
    ensures Scan(EncodeAll(d.wal), Base(d)) == Scanned(Resolved(Base(d), d.wal), Rebuilt(d), |EncodeAll(d.wal)|)
  {
    hide Load, Dense, LogOrder, Replay, Resolved, Concat, Whole, Scan;
    var n := |EncodeAll(d.wal)|;
    ScanOfPrefix(Base(d), d.wal, n);
    WholeOfAll(Encode, d.wal);
    assert EncodeAll(d.wal)[..n] == EncodeAll(d.wal);
    assert d.wal[..|d.wal|] == d.wal;
  }

  ghost predicate CatRebuilt(d: Disk, c: Catalog) {
    SamePins(c, Rebuilt(d)) && Dense(c) && c.dirty == Rebuilt(d).dirty
  }

  /** The open records of partition p after k log records: those above the watermark, in order. */
  ghost predicate OpenRebuilt(cfg: Config, d: Disk, k: nat, open: map<Part, seq<Record>>, p: Part)
    requires k <= |d.wal|
  {
    (if p in open then open[p] else []) == Above(LoggedIn(cfg, d.wal[..k], p), Watermark(FramesIn(d, p)))
  }

  /** What the replay loop has built after k log records. */
  ghost predicate RebuiltUpTo(cfg: Config, d: Disk, k: nat, m: Mem)
    requires k <= |d.wal|
  {
    && CatRebuilt(d, m.cat)
    && (forall p :: OpenRebuilt(cfg, d, k, m.open, p))
    && OpenOk(cfg, m)
  }

  lemma RebuildOpenOne(cfg: Config, d: Disk, k: nat, m: Mem, open: map<Part, seq<Record>>, p: Part)
    requires k < |d.wal| && OpenRebuilt(cfg, d, k, m.open, p)
    requires var r := d.wal[k].rec;
             var q := cfg.part(r.ts);
             open == if IsAbove(r.ts, Watermark(FramesIn(d, q))) then m.open[q := OpenIn(m, q) + [r]] else m.open
    ensures OpenRebuilt(cfg, d, k + 1, open, p)
  {
    hide Above, LoggedIn, Watermark, IsAbove;
    var w := d.wal[k];
    assert d.wal[..k + 1] == d.wal[..k] + [w];
    LoggedInSnoc(cfg, d.wal[..k], w, p);
    if cfg.part(w.rec.ts) == p {
      AboveSnoc(LoggedIn(cfg, d.wal[..k], p), w.rec, Watermark(FramesIn(d, p)));
    } else {
      assert LoggedIn(cfg, d.wal[..k + 1], p) == LoggedIn(cfg, d.wal[..k], p);
    }
  }

  lemma RebuildCatOne(d: Disk, k: nat, c: Catalog)
    requires DiskOk(d) && k < |d.wal| && CatRebuilt(d, c)
    ensures var r := d.wal[k].rec;
            && ValidRecord(r) && TypeOf(c, r.id) == Some(r.valueType)
            && UpdateLast(c, r.id, r.ts).Ok?
            && var c' := UpdateLast(c, r.id, r.ts).value;
               CatRebuilt(d, c') && Dense(c) && Extends(c, c')
  {
    var r := d.wal[k].rec;
    ReplayKnowsIds(Base(d), d.wal, k);
    PrefixInOrder(Base(d), d.wal, k);
    ReplayKeepsDense(Base(d), d.wal);
    SamePinsExtends(c, Rebuilt(d));
    DenseTypeOf(Rebuilt(d), c, r.id);
    UpdateLastKeepsPins(c, r.id, r.ts);
    var c' := UpdateLast(c, r.id, r.ts).value;
    SamePinsExtends(c, c');
    SamePinsTransitive(c', c, Rebuilt(d));
  }

  /** One turn of the replay loop. */
  lemma RebuildOne(cfg: Config, d: Disk, k: nat, m: Mem, next: Mem)
    requires DiskOk(d) && k < |d.wal| && RebuiltUpTo(cfg, d, k, m)
    requires var r := d.wal[k].rec;
             var p := cfg.part(r.ts);
             next == if !IsAbove(r.ts, Watermark(FramesIn(d, p))) then m
                     else
                       var noted := UpdateLast(m.cat, r.id, r.ts);
                       Mem(if noted.Ok? then noted.value else m.cat, m.open[p := OpenIn(m, p) + [r]])
    ensures RebuiltUpTo(cfg, d, k + 1, next)
  {
    hide Above, LoggedIn, Watermark, IsAbove, Belongs, CatRebuilt, OpenRebuilt;
    var r := d.wal[k].rec;
    var k' := k + 1;
    forall p ensures OpenRebuilt(cfg, d, k', next.open, p) {
      RebuildOpenOne(cfg, d, k, m, next.open, p);
    }
    if IsAbove(r.ts, Watermark(FramesIn(d, cfg.part(r.ts)))) {
      RebuildCatOne(d, k, m.cat);
      forall p | p in next.open ensures Belongs(cfg, next.cat, p, next.open[p]) {
        RebuildBelongs(cfg, m, next, r, p);
      }
    }
  }

  lemma RebuildBelongs(cfg: Config, m: Mem, next: Mem, r: Record, p: Part)
    requires Dense(m.cat) && Extends(m.cat, next.cat)
    requires ValidRecord(r) && TypeOf(m.cat, r.id) == Some(r.valueType)
    requires next.open == m.open[cfg.part(r.ts) := OpenIn(m, cfg.part(r.ts)) + [r]]
    requires p in next.open && OpenOk(cfg, m)
    ensures Belongs(cfg, next.cat, p, next.open[p])
  {
    TypedExtends(m.cat, next.cat, OpenIn(m, p));
    DenseTypeOf(m.cat, next.cat, r.id);
  }

  lemma RebuildStart(cfg: Config, d: Disk)
    requires DiskOk(d)
    ensures RebuiltUpTo(cfg, d, 0, Mem(Rebuilt(d), map[]))
  {
    ReplayKeepsDense(Base(d), d.wal);
    hide Dense, LogOrder, Watermark;
  }

  lemma {:induction false} RebuildOpens(cfg: Config, d: Disk, k: nat)
    requires DiskOk(d) && k <= |d.wal|
    ensures RebuiltUpTo(cfg, d, k, Rebuild(cfg, d, Rebuilt(d), Resolved(Base(d), d.wal)[..k]))
  {
    hide RebuiltUpTo, DiskOk, Rebuilt;
    var ds := Resolved(Base(d), d.wal);
    if k == 0 {
      RebuildStart(cfg, d);
    } else {
      RebuildOpens(cfg, d, k - 1);
      assert ds[..k][..k - 1] == ds[..k - 1];
      ResolvedRecords(Base(d), d.wal, k - 1);
      RebuildOne(cfg, d, k - 1, Rebuild(cfg, d, Rebuilt(d), ds[..k - 1]), Rebuild(cfg, d, Rebuilt(d), ds[..k]));
    }
  }

  /**
   From the durable files of any point of any trail, when every name is valid UTF-8, reopening succeeds: the registry
   comes back with the same pins, each open page is exactly the log's records above the partition's watermark, in
   order, and the invariant holds again.
   */
  lemma ReopenRestores(cfg: Config, at: Point)
    requires Inv(cfg, at) && IsReadable(at.mem.cat)
    ensures Reopen(cfg, at.disk).Ok?
    ensures var m := Reopen(cfg, at.disk).value;
            && Inv(cfg, Point(at.disk, m))
            && SamePins(m.cat, at.mem.cat)
            && (forall p :: OpenIn(m, p) == Survivors(cfg, at.disk, p))
  {
    hide Above, LoggedIn, Watermark, IsAbove, Rebuild, Scan, EncodeAll, Resolved, Belongs, Dense, LogOrder;
    var d := at.disk;
    ScanOfLog(d);
    var m := Reopen(cfg, d).value;
    RebuildOpens(cfg, d, |d.wal|);
    assert Resolved(Base(d), d.wal)[..|d.wal|] == Resolved(Base(d), d.wal);
    assert d.wal[..|d.wal|] == d.wal;
    SamePinsTransitive(at.mem.cat, Rebuilt(d), m.cat);
    SamePinsExtends(at.mem.cat, m.cat);
    FilesExtend(cfg, at.mem.cat, m.cat, d.files);
    if !m.cat.dirty {
      CleanReplay(Base(d), d.wal);
    }
    forall p ensures Tracks(cfg, Point(d, m), p) && OpenIn(m, p) == Survivors(cfg, d, p) {
      assert OpenRebuilt(cfg, d, |d.wal|, m.open, p);
      var w := Watermark(FramesIn(d, p));
      AboveMembers(LoggedIn(cfg, d.wal, p), w);
      AboveIsAllIff(OpenIn(m, p), w);
    }
  }
}
