/**
 Replay of the metric log: from any files it restores exactly the records above the initial watermarks, and
 from the files of any reachable crash it never seals a day, so it never truncates the log it is reading.
 */
module MetricReplay {
  import opened Prelude
  import opened Bytes
  import opened Names
  import opened Samples
  import opened MetricRegistry
  import opened MetricEngine
  import opened MetricInvariant
  import opened MetricIngest

  /** The log records of partition p that are above a given watermark. */
  function AboveIn(cfg: Config, ws: seq<Logged>, p: Part, mark: Timestamp): (rs: Page) {
    if ws == [] then []
    else
      var s := ws[|ws| - 1].sample;
      AboveIn(cfg, ws[..|ws| - 1], p, mark) + if cfg.part(s.ts) == p && !IsDurable(s.ts, mark) then [s] else []
  }

  lemma AboveInSnoc(cfg: Config, ws: seq<Logged>, k: nat, p: Part, mark: Timestamp)
    requires k < |ws|
    ensures var s := ws[k].sample;
            AboveIn(cfg, ws[..k + 1], p, mark)
            == AboveIn(cfg, ws[..k], p, mark) + if cfg.part(s.ts) == p && !IsDurable(s.ts, mark) then [s] else []
  {
    assert ws[..k + 1][..k] == ws[..k];
  }

  // ---------------------------------------------------------------- what is restored

  /** The cached watermarks are the initial ones, and a partition without one has not been touched. */
  ghost predicate MarksOk(d: Disk, at: Point, marks: map<Part, Timestamp>) {
    && (forall p :: p in marks ==> marks[p] == Mark(FramesIn(d, p)))
    && (forall p :: p !in marks ==> FramesIn(at.disk, p) == FramesIn(d, p) && p !in at.mem.open)
  }

  ghost predicate Restored(cfg: Config, d: Disk, ws: seq<Logged>, at: Point, p: Part) {
    multiset(Stored(at, p)) == multiset(Flatten(FramesIn(d, p))) + multiset(AboveIn(cfg, ws, p, Mark(FramesIn(d, p))))
  }

  lemma WriteStores(cfg: Config, at: Point, o: Part)
    ensures var next := WriteDay(cfg, at, o);
            && (forall q :: Stored(next, q) == Stored(at, q))
            && (forall q :: q != o ==> FramesIn(next.disk, q) == FramesIn(at.disk, q))
            && next.mem.open == at.mem.open - {o} && next.mem.sealed == at.mem.sealed
            && SameNames(at.mem.cat, next.mem.cat) && next.disk.wal == at.disk.wal
  {
    hide Flatten, Listing;
    forall q ensures Stored(FlushDay(at, o), q) == Stored(at, q) {
      FlushStores(at, o, q);
    }
  }

  lemma ResetStores(cfg: Config, at: Point)
    ensures var next := MaybeReset(cfg, at);
            && next.disk.files == at.disk.files && next.mem.open == at.mem.open && next.mem.sealed == at.mem.sealed
            && SameNames(at.mem.cat, next.mem.cat)
  {
    hide Listing;
  }

  /** An opening may seal another day; it moves no sample and touches only days that are open. */
  lemma EnsureStores(cfg: Config, at: Point, p: Part)
    ensures var out := EnsureDay(cfg, at, p);
            && (forall q :: Stored(out.end, q) == Stored(at, q))
            && (forall q :: q !in at.mem.open ==> FramesIn(out.end.disk, q) == FramesIn(at.disk, q))
            && out.end.mem.open.Keys <= at.mem.open.Keys + {p}
            && SameNames(at.mem.cat, out.end.mem.cat)
  {
    hide Flatten, WriteDay, MaybeReset;
    if p !in at.mem.sealed && p !in at.mem.open && |at.mem.open| >= cfg.MaxActive() {
      var o := Oldest(at.mem.open);
      WriteStores(cfg, at, o);
      ResetStores(cfg, WriteDay(cfg, at, o));
    } else {
      assert forall q :: OpenIn(EnsureDay(cfg, at, p).end.mem, q) == OpenIn(at.mem, q);
    }
  }

  lemma PutStores(at: Point, p: Part, s: Sample)
    ensures var next := Put(at, p, s);
            && (forall q :: Stored(next, q) == Stored(at, q) + if q == p then [s] else [])
            && next.disk == at.disk && next.mem.open.Keys == at.mem.open.Keys + {p}
  {
    hide Flatten, NoteLast;
  }

  /** A record that reaches a page is stored exactly once. */
  lemma ReinsertStores(cfg: Config, at: Point, s: Sample)
    ensures var out := Reinsert(cfg, at, s);
            var p := cfg.part(s.ts);
            out.err.None? ==>
              && (forall q :: Stored(out.end, q) == Stored(at, q) + if q == p then [s] else [])
              && (forall q :: q != p && q !in at.mem.open ==> FramesIn(out.end.disk, q) == FramesIn(at.disk, q))
              && out.end.mem.open.Keys <= at.mem.open.Keys + {p}
  {
    hide EnsureDay, Put, Stored, Refuses, WriteDay, WriteTrail;
    var p := cfg.part(s.ts);
    EnsureStores(cfg, at, p);
    var ready := EnsureDay(cfg, at, p);
    PutStores(ready.end, p, s);
    var flushed := WriteDay(cfg, ready.end, p);
    WriteStores(cfg, ready.end, p);
    EnsureStores(cfg, flushed, p);
    PutStores(EnsureDay(cfg, flushed, p).end, p, s);
  }

  lemma RestoredNext(cfg: Config, d: Disk, ws: seq<Logged>, k: nat, at: Point, next: Point, p: Part)
    requires k < |ws| && Restored(cfg, d, ws[..k], at, p)
    requires var s := ws[k].sample;
             Stored(next, p) == Stored(at, p) + if cfg.part(s.ts) == p && !IsDurable(s.ts, Mark(FramesIn(d, p))) then [s] else []
    ensures Restored(cfg, d, ws[..k + 1], next, p)
  {
    hide Stored, Flatten, Mark;
    AboveInSnoc(cfg, ws, k, p, Mark(FramesIn(d, p)));
  }

  lemma NamedStores(at: Point, c: Registry)
    ensures forall q :: Stored(at.(mem := at.mem.(cat := c)), q) == Stored(at, q)
  {
    hide Flatten;
  }

  lemma {:induction false} ReplayRestores(cfg: Config, d: Disk, c: Registry, ws: seq<Logged>, k: nat)
    requires k <= |ws|
    ensures var r := Replay(cfg, d, c, ws[..k]);
            r.out.err.None? ==> MarksOk(d, r.out.end, r.marks) && forall p :: Restored(cfg, d, ws[..k], r.out.end, p)
  {
    hide Restored, Reinsert, NameRecord, Stored, IsDurable;
    if k == 0 {
      RestoredStart(cfg, d, c);
    } else {
      assert ws[..k][..k - 1] == ws[..k - 1];
      ReplayRestores(cfg, d, c, ws, k - 1);
      var prev := Replay(cfg, d, c, ws[..k - 1]);
      if Replay(cfg, d, c, ws[..k]).out.err.None? {
        RestoreTurn(cfg, d, ws, k - 1, prev);
      }
    }
  }

  lemma RestoredStart(cfg: Config, d: Disk, c: Registry)
    ensures var start := Point(d, Mem(c, map[], {}));
            MarksOk(d, start, map[]) && forall p :: Restored(cfg, d, [], start, p)
  {
    hide Flatten;
  }

  lemma RestoreTurn(cfg: Config, d: Disk, ws: seq<Logged>, k: nat, prev: Replayed)
    requires k < |ws| && MarksOk(d, prev.out.end, prev.marks) && forall p :: Restored(cfg, d, ws[..k], prev.out.end, p)
    requires ReplayOne(cfg, prev, ws[k]).out.err.None?
    ensures var r, taken := ReplayOne(cfg, prev, ws[k]), ws[..k + 1];
            MarksOk(d, r.out.end, r.marks) && forall p :: Restored(cfg, d, taken, r.out.end, p)
  {
    hide Restored, Reinsert, NameRecord, Stored, IsDurable, Mark;
    var at := prev.out.end;
    var w := ws[k];
    var c := NameRecord(at.mem.cat, w).value;
    var named := at.(mem := at.mem.(cat := c));
    NamedStores(at, c);
    ReinsertStores(cfg, named, w.sample);
    var r := ReplayOne(cfg, prev, w);
    var next := k + 1;
    forall p ensures Restored(cfg, d, ws[..next], r.out.end, p) {
      RestoredNext(cfg, d, ws, k, at, r.out.end, p);
    }
  }

  /**
   Whenever replay ends without an error, frames and open pages hold, as multisets, the frames that were
   there before and exactly the log records above their partition's initial watermark, once each, even when
   replay seals days or flushes a page that refuses a record.
   */
  lemma ReplayIsExact(cfg: Config, d: Disk, c: Registry, p: Part)
    requires Replay(cfg, d, c, d.wal).out.err.None?
    ensures multiset(Stored(Replay(cfg, d, c, d.wal).out.end, p))
            == multiset(Flatten(FramesIn(d, p))) + multiset(AboveIn(cfg, d.wal, p, Mark(FramesIn(d, p))))
  {
    ReplayRestores(cfg, d, c, d.wal, |d.wal|);
    assert d.wal[..|d.wal|] == d.wal;
    var r := Replay(cfg, d, c, d.wal);
    hide Replay;
    assert Restored(cfg, d, d.wal, r.out.end, p);
  }

  // ---------------------------------------------------------------- no sealing

  /** A crash here would leave files whose days are still accounted for by the pages open before the first crash. */
  ghost predicate CrashOk(cfg: Config, pt: Point, un: multiset<Sample>, disk: Disk) {
    disk.wal == pt.disk.wal && Inv(cfg, Point(disk, pt.mem), un)
  }

  /** Raising a file never lowers its watermark. */
  ghost predicate Raised(d: Disk, e: Disk) {
    forall p, ts: Timestamp :: ts >= 0 && IsDurable(ts, Mark(FramesIn(d, p))) ==> IsDurable(ts, Mark(FramesIn(e, p)))
  }

  /** The state of replay after k records of the log of pt, a point that keeps the invariant. */
  ghost predicate Tracking(cfg: Config, pt: Point, un: multiset<Sample>, k: nat, at: Point)
    requires k <= |pt.disk.wal|
  {
    && CrashOk(cfg, pt, un, at.disk)
    && OpenOk(cfg, at.mem) && at.mem.sealed == {}
    && Raised(pt.disk, at.disk)
    && (forall p :: p in at.mem.open ==> OpenIn(pt.mem, p) != [])
    && (forall p :: multiset(OpenIn(at.mem, p)) <= multiset(LoggedIn(cfg, pt.disk.wal[..k], p)))
    && (forall j :: 0 <= j < k ==> RecordCovered(cfg, at, pt.disk.wal[j]))
  }

  /** Replay has cached the watermarks pt's files had, and every write it made is one a crash may follow. */
  ghost predicate Resuming(cfg: Config, pt: Point, un: multiset<Sample>, r: Replayed) {
    && (forall p :: p in r.marks ==> r.marks[p] == Mark(FramesIn(pt.disk, p)))
    && (forall p :: p !in r.marks ==> FramesIn(r.out.end.disk, p) == FramesIn(pt.disk, p) && p !in r.out.end.mem.open)
    && (forall i :: 0 <= i < |r.out.trail| ==> CrashOk(cfg, pt, un, r.out.trail[i].disk))
  }

  /** The day of a record above the watermark was open before the crash, so it fits without sealing. */
  lemma RoomForRecord(cfg: Config, pt: Point, open: set<Part>, p: Part)
    requires DaysOk(cfg, pt.mem) && OpenIn(pt.mem, p) != [] && p !in open
    requires forall q :: q in open ==> OpenIn(pt.mem, q) != []
    ensures |open| < cfg.MaxActive()
  {
    forall q | q in open + {p} ensures q in pt.mem.open.Keys {
      assert OpenIn(pt.mem, q) != [];
    }
    SubsetSize(open + {p}, pt.mem.open.Keys);
    assert |pt.mem.open.Keys| == |pt.mem.open|;
  }

  /** Opening the day of such a record only opens it. */
  lemma EnsureOnlyOpens(cfg: Config, pt: Point, un: multiset<Sample>, k: nat, at: Point, p: Part)
    requires k <= |pt.disk.wal| && Tracking(cfg, pt, un, k, at) && OpenIn(pt.mem, p) != []
    ensures var out := EnsureDay(cfg, at, p);
            && out == Done(out.end, []) && out.end.disk == at.disk && out.end.mem.open.Keys == at.mem.open.Keys + {p}
            && (forall q :: OpenIn(out.end.mem, q) == OpenIn(at.mem, q))
            && out.end.mem.cat == at.mem.cat
            && Tracking(cfg, pt, un, k, out.end)
  {
    hide PageOk, LoggedIn, Raised, IsAbove, FilesOk, Covered, Backed, OpenOk, SealDay;
    if p !in at.mem.open {
      RoomForRecord(cfg, pt, at.mem.open.Keys, p);
      assert |at.mem.open.Keys| == |at.mem.open|;
      OpenTracks(cfg, pt, un, k, at, p);
    }
  }

  lemma OpenTracks(cfg: Config, pt: Point, un: multiset<Sample>, k: nat, at: Point, p: Part)
    requires k <= |pt.disk.wal| && Tracking(cfg, pt, un, k, at) && OpenIn(pt.mem, p) != [] && p !in at.mem.open
    ensures var next := at.(mem := at.mem.(open := at.mem.open[p := None]));
            Tracking(cfg, pt, un, k, next) && forall q :: OpenIn(next.mem, q) == OpenIn(at.mem, q)
  {
    hide PageOk, LoggedIn, Raised, IsAbove, CrashOk, EndOf;
    var next := at.(mem := at.mem.(open := at.mem.open[p := None]));
    forall j | 0 <= j < k ensures RecordCovered(cfg, next, pt.disk.wal[j]) {
      assert RecordCovered(cfg, at, pt.disk.wal[j]);
    }
    forall q
      ensures OpenIn(next.mem, q) == OpenIn(at.mem, q)
      ensures multiset(OpenIn(next.mem, q)) <= multiset(LoggedIn(cfg, pt.disk.wal[..k], q))
    {
      assert multiset(OpenIn(at.mem, q)) <= multiset(LoggedIn(cfg, pt.disk.wal[..k], q));
    }
  }

  /** Adding a frame keeps what a crash needs, whatever pages are open. */
  lemma AddFrameKeeps(cfg: Config, disk: Disk, mem: Mem, un: multiset<Sample>, p: Part, page: Page)
    requires Inv(cfg, Point(disk, mem), un) && PageOk(cfg, p, page)
    ensures var next := disk.(files := disk.files[p := FramesIn(disk, p) + [page]]);
            Inv(cfg, Point(next, mem), un) && Raised(disk, next)
  {
    hide PageOk, LoggedIn, IsDurable, Mark;
    var next := disk.(files := disk.files[p := FramesIn(disk, p) + [page]]);
    EndIsMember(cfg, p, page);
    MarkRises(FramesIn(disk, p), page);
    forall w | w in next.wal ensures RecordCovered(cfg, Point(next, mem), w) {
      assert RecordCovered(cfg, Point(disk, mem), w);
    }
    forall q, i | q in next.files && 0 <= i < |next.files[q]| ensures PageOk(cfg, q, next.files[q][i]) {
      if q != p || i < |FramesIn(disk, q)| {
        assert next.files[q][i] == disk.files[q][i];
      }
    }
    forall q ensures Backed(cfg, Point(next, mem), q, un) {
      assert Backed(cfg, Point(disk, mem), q, un);
    }
  }

  lemma EndIsMember(cfg: Config, p: Part, page: Page)
    requires PageOk(cfg, p, page)
    ensures page != [] && EndOf(page) >= 0
  {
    assert page[|page| - 1] in page;
  }

  lemma RaisedTwice(a: Disk, b: Disk, c: Disk)
    requires Raised(a, b) && Raised(b, c)
    ensures Raised(a, c)
  {
    hide Mark, IsDurable;
  }

  /** catalog.json and the registry play no part in what replay tracks. */
  lemma RelabelTracks(cfg: Config, pt: Point, un: multiset<Sample>, k: nat, at: Point, saved: seq<SavedMetric>, c: Registry)
    requires k <= |pt.disk.wal| && Tracking(cfg, pt, un, k, at)
    ensures var next := Point(at.disk.(saved := saved), at.mem.(cat := c));
            Tracking(cfg, pt, un, k, next) && CrashOk(cfg, pt, un, next.disk)
  {
    hide PageOk, LoggedIn, IsAbove, IsDurable, Mark, Inv;
    var next := Point(at.disk.(saved := saved), at.mem.(cat := c));
    RelabelKeeps(cfg, Point(at.disk, pt.mem), un, saved, pt.mem.cat);
    assert next.disk.files == at.disk.files;
    forall j | 0 <= j < k ensures RecordCovered(cfg, next, pt.disk.wal[j]) {
      assert RecordCovered(cfg, at, pt.disk.wal[j]);
    }
    forall q ensures multiset(OpenIn(next.mem, q)) <= multiset(LoggedIn(cfg, pt.disk.wal[..k], q)) {
      assert OpenIn(next.mem, q) == OpenIn(at.mem, q);
    }
  }

  /** A page flush in replay, with the registry save that may follow it. */
  lemma WriteTracks(cfg: Config, pt: Point, un: multiset<Sample>, k: nat, at: Point, p: Part)
    requires k <= |pt.disk.wal| && Tracking(cfg, pt, un, k, at) && OpenIn(at.mem, p) != []
    ensures var next := WriteDay(cfg, at, p);
            && Tracking(cfg, pt, un, k, next)
            && forall i :: 0 <= i < |WriteTrail(cfg, at, p)| ==> CrashOk(cfg, pt, un, WriteTrail(cfg, at, p)[i].disk)
  {
    hide Tracking, CrashOk, FlushDay, Listing;
    FlushTracks(cfg, pt, un, k, at, p);
    var flushed := FlushDay(at, p);
    TrackingGives(cfg, pt, un, k, flushed);
    RelabelTracks(cfg, pt, un, k, flushed, Listing(flushed.mem.cat), flushed.mem.cat.(dirty := false));
  }

  lemma FlushTracks(cfg: Config, pt: Point, un: multiset<Sample>, k: nat, at: Point, p: Part)
    requires k <= |pt.disk.wal| && Tracking(cfg, pt, un, k, at) && OpenIn(at.mem, p) != []
    ensures Tracking(cfg, pt, un, k, FlushDay(at, p))
  {
    hide PageOk, LoggedIn, Raised, RecordCovered, Inv;
    var next := FlushDay(at, p);
    OpenPageOk(cfg, at.mem, p);
    AddFrameKeeps(cfg, at.disk, pt.mem, un, p, OpenIn(at.mem, p));
    RaisedTwice(pt.disk, at.disk, next.disk);
    forall j | 0 <= j < k ensures RecordCovered(cfg, next, pt.disk.wal[j]) {
      FlushCovers(cfg, at, p, pt.disk.wal[j]);
    }
    forall q ensures multiset(OpenIn(next.mem, q)) <= multiset(LoggedIn(cfg, pt.disk.wal[..k], q)) {
      assert q != p ==> OpenIn(next.mem, q) == OpenIn(at.mem, q);
    }
  }

  lemma PutTracks(cfg: Config, pt: Point, un: multiset<Sample>, k: nat, at: Point)
    requires k < |pt.disk.wal| && Tracking(cfg, pt, un, k, at)
    requires var s := pt.disk.wal[k].sample;
             var p := cfg.part(s.ts);
             s.ts >= 0 && OpenIn(pt.mem, p) != [] && !Refuses(at.mem, p, s.ts)
    ensures var s := pt.disk.wal[k].sample;
            Tracking(cfg, pt, un, k + 1, Put(at, cfg.part(s.ts), s))
  {
    hide PageOk, LoggedIn, Raised, RecordCovered, CrashOk, NoteLast, Refuses;
    var w := pt.disk.wal[k];
    var p := cfg.part(w.sample.ts);
    var next := Put(at, p, w.sample);
    PutPageOk(cfg, at, w.sample, p);
    assert pt.disk.wal[..k + 1] == pt.disk.wal[..k] + [w];
    forall j | 0 <= j < k + 1 ensures RecordCovered(cfg, next, pt.disk.wal[j]) {
      PutKeepsCover(cfg, at, w.sample, pt.disk.wal[j]);
    }
    forall q ensures multiset(OpenIn(next.mem, q)) <= multiset(LoggedIn(cfg, pt.disk.wal[..k + 1], q)) {
      LoggedInSnoc(cfg, pt.disk.wal[..k], w, q);
      assert q != p ==> OpenIn(next.mem, q) == OpenIn(at.mem, q);
    }
  }

  lemma PutKeepsCover(cfg: Config, at: Point, s: Sample, x: Logged)
    requires s.ts >= 0 && !Refuses(at.mem, cfg.part(s.ts), s.ts)
    requires RecordCovered(cfg, at, x) || x.sample == s
    ensures RecordCovered(cfg, Put(at, cfg.part(s.ts), s), x)
  {
    hide IsAbove;
  }

  lemma SkipTracks(cfg: Config, pt: Point, un: multiset<Sample>, k: nat, at: Point)
    requires k < |pt.disk.wal| && Tracking(cfg, pt, un, k, at)
    requires var s := pt.disk.wal[k].sample;
             s.ts >= 0 && IsDurable(s.ts, Mark(FramesIn(pt.disk, cfg.part(s.ts))))
    ensures Tracking(cfg, pt, un, k + 1, at)
  {
    hide PageOk, LoggedIn, IsDurable, Mark, CrashOk;
    var w := pt.disk.wal[k];
    assert pt.disk.wal[..k + 1] == pt.disk.wal[..k] + [w];
    forall q ensures multiset(OpenIn(at.mem, q)) <= multiset(LoggedIn(cfg, pt.disk.wal[..k + 1], q)) {
      LoggedInSnoc(cfg, pt.disk.wal[..k], w, q);
    }
    assert RecordCovered(cfg, at, w);
  }

  lemma NameTracks(cfg: Config, pt: Point, un: multiset<Sample>, k: nat, at: Point, c: Registry)
    requires k <= |pt.disk.wal| && Tracking(cfg, pt, un, k, at)
    ensures Tracking(cfg, pt, un, k, at.(mem := at.mem.(cat := c)))
  {
    hide Tracking, CrashOk;
    RelabelTracks(cfg, pt, un, k, at, at.disk.saved, c);
    assert at.disk.(saved := at.disk.saved) == at.disk;
  }

  /** Reinserting a record above its watermark: it never fails, no day is sealed, and each write is one a crash may follow. */
  lemma ReinsertTracks(cfg: Config, pt: Point, un: multiset<Sample>, k: nat, at: Point)
    requires k < |pt.disk.wal| && Tracking(cfg, pt, un, k, at)
    requires var s := pt.disk.wal[k].sample;
             s.ts >= 0 && OpenIn(pt.mem, cfg.part(s.ts)) != []
    ensures var s := pt.disk.wal[k].sample;
            var out, p := Reinsert(cfg, at, s), cfg.part(s.ts);
            && out.err.None? && Tracking(cfg, pt, un, k + 1, out.end)
            && CrashOk(cfg, pt, un, out.end.disk) && out.end.mem.sealed == {}
            && (forall i :: 0 <= i < |out.trail| ==> CrashOk(cfg, pt, un, out.trail[i].disk))
            && (forall q :: q != p ==> FramesIn(out.end.disk, q) == FramesIn(at.disk, q))
            && out.end.mem.open.Keys <= at.mem.open.Keys + {p}
  {
    hide EnsureDay, Put, Refuses, Tracking, CrashOk, WriteDay, WriteTrail;
    var s := pt.disk.wal[k].sample;
    var p := cfg.part(s.ts);
    EnsureOnlyOpens(cfg, pt, un, k, at, p);
    var ready := EnsureDay(cfg, at, p).end;
    TrackingGives(cfg, pt, un, k, ready);
    PutStores(ready, p, s);
    if !Refuses(ready.mem, p, s.ts) {
      PutTracks(cfg, pt, un, k, ready);
      TrackingGives(cfg, pt, un, k + 1, Put(ready, p, s));
    } else {
      ReinsertAfterFlush(cfg, pt, un, k, ready);
    }
  }

  lemma TrackingGives(cfg: Config, pt: Point, un: multiset<Sample>, k: nat, at: Point)
    requires k <= |pt.disk.wal| && Tracking(cfg, pt, un, k, at)
    ensures CrashOk(cfg, pt, un, at.disk) && at.mem.sealed == {} && OpenOk(cfg, at.mem)
  {
  }

  lemma ReinsertAfterFlush(cfg: Config, pt: Point, un: multiset<Sample>, k: nat, ready: Point)
    requires k < |pt.disk.wal| && Tracking(cfg, pt, un, k, ready)
    requires var s := pt.disk.wal[k].sample;
             var p := cfg.part(s.ts);
             s.ts >= 0 && OpenIn(pt.mem, p) != [] && Refuses(ready.mem, p, s.ts) && p in ready.mem.open
    ensures var s := pt.disk.wal[k].sample;
            var p := cfg.part(s.ts);
            var flushed, trail := WriteDay(cfg, ready, p), WriteTrail(cfg, ready, p);
            var again := EnsureDay(cfg, flushed, p);
            var end := Put(again.end, p, s);
            && (forall i :: 0 <= i < |trail| ==> CrashOk(cfg, pt, un, trail[i].disk)) && again == Done(again.end, [])
            && Tracking(cfg, pt, un, k + 1, end) && CrashOk(cfg, pt, un, end.disk) && end.mem.sealed == {}
            && (forall q :: q != p ==> FramesIn(end.disk, q) == FramesIn(ready.disk, q))
            && end.mem.open.Keys <= ready.mem.open.Keys
  {
    hide EnsureDay, Put, Tracking, CrashOk, WriteDay, WriteTrail, Stored;
    var s := pt.disk.wal[k].sample;
    var p := cfg.part(s.ts);
    var flushed := WriteDay(cfg, ready, p);
    WriteTracks(cfg, pt, un, k, ready, p);
    WriteStores(cfg, ready, p);
    TrackingGives(cfg, pt, un, k, flushed);
    EnsureOnlyOpens(cfg, pt, un, k, flushed, p);
    var again := EnsureDay(cfg, flushed, p).end;
    PutStores(again, p, s);
    assert !Refuses(again.mem, p, s.ts);
    PutTracks(cfg, pt, un, k, again);
    TrackingGives(cfg, pt, un, k + 1, Put(again, p, s));
  }

  /** What every stage of replay satisfies, error or not. */
  ghost predicate NeverSealed(cfg: Config, pt: Point, un: multiset<Sample>, out: Outcome) {
    && CrashOk(cfg, pt, un, out.end.disk) && out.end.mem.sealed == {}
    && (forall i :: 0 <= i < |out.trail| ==> CrashOk(cfg, pt, un, out.trail[i].disk))
  }

  lemma CoveredRecord(cfg: Config, pt: Point, un: multiset<Sample>, k: nat)
    requires Inv(cfg, pt, un) && k < |pt.disk.wal|
    ensures RecordCovered(cfg, pt, pt.disk.wal[k])
  {
    hide RecordCovered;
  }

  lemma ResumeTurn(cfg: Config, pt: Point, un: multiset<Sample>, k: nat, prev: Replayed)
    requires k < |pt.disk.wal| && Inv(cfg, pt, un)
    requires Tracking(cfg, pt, un, k, prev.out.end) && Resuming(cfg, pt, un, prev) && prev.out.err.None?
    ensures var r := ReplayOne(cfg, prev, pt.disk.wal[k]);
            && NeverSealed(cfg, pt, un, r.out)
            && (r.out.err.None? <==> NameRecord(prev.out.end.mem.cat, pt.disk.wal[k]).Ok?)
            && (r.out.err.None? ==> Tracking(cfg, pt, un, k + 1, r.out.end) && Resuming(cfg, pt, un, r))
  {
    hide Tracking, CrashOk, Reinsert, NameRecord, Inv, IsDurable, Mark;
    var at := prev.out.end;
    var w := pt.disk.wal[k];
    TrackingGives(cfg, pt, un, k, at);
    CoveredRecord(cfg, pt, un, k);
    if NameRecord(at.mem.cat, w).Ok? {
      var named := at.(mem := at.mem.(cat := NameRecord(at.mem.cat, w).value));
      NameTracks(cfg, pt, un, k, at, named.mem.cat);
      var mark := MarkOf(prev.marks, at.disk, cfg.part(w.sample.ts));
      assert mark == Mark(FramesIn(pt.disk, cfg.part(w.sample.ts)));
      if IsDurable(w.sample.ts, mark) {
        SkipTracks(cfg, pt, un, k, named);
      } else {
        ReinsertTracks(cfg, pt, un, k, named);
      }
    }
  }

  lemma {:induction false} ReplayTracks(cfg: Config, pt: Point, un: multiset<Sample>, c: Registry, k: nat)
    requires k <= |pt.disk.wal| && Inv(cfg, pt, un)
    ensures var r := Replay(cfg, pt.disk, c, pt.disk.wal[..k]);
            && NeverSealed(cfg, pt, un, r.out)
            && (r.out.err.None? ==> Tracking(cfg, pt, un, k, r.out.end) && Resuming(cfg, pt, un, r))
  {
    hide Tracking, Resuming, NeverSealed, ReplayOne, Inv;
    if k == 0 {
      TrackingStart(cfg, pt, un, c);
    } else {
      assert pt.disk.wal[..k][..k - 1] == pt.disk.wal[..k - 1];
      ReplayTracks(cfg, pt, un, c, k - 1);
      var prev := Replay(cfg, pt.disk, c, pt.disk.wal[..k - 1]);
      if prev.out.err.None? {
        ResumeTurn(cfg, pt, un, k - 1, prev);
      }
    }
  }

  lemma TrackingStart(cfg: Config, pt: Point, un: multiset<Sample>, c: Registry)
    requires Inv(cfg, pt, un)
    ensures var start := Replayed(Done(Point(pt.disk, Mem(c, map[], {})), []), map[]);
            && Tracking(cfg, pt, un, 0, start.out.end) && Resuming(cfg, pt, un, start) && NeverSealed(cfg, pt, un, start.out)
  {
    assert pt == Point(pt.disk, pt.mem);
    hide Inv;
  }

  lemma TrackedIsInv(cfg: Config, pt: Point, un: multiset<Sample>, at: Point)
    requires DaysOk(cfg, pt.mem) && Tracking(cfg, pt, un, |pt.disk.wal|, at)
    ensures Inv(cfg, at, multiset{})
  {
    hide PageOk, IsAbove, LoggedIn, Raised;
    assert pt.disk.wal[..|pt.disk.wal|] == pt.disk.wal;
    forall w | w in at.disk.wal ensures RecordCovered(cfg, at, w) {
      var j :| 0 <= j < |pt.disk.wal| && pt.disk.wal[j] == w;
      assert RecordCovered(cfg, at, pt.disk.wal[j]);
    }
    forall q | q in at.mem.open.Keys ensures q in pt.mem.open.Keys {
      assert OpenIn(pt.mem, q) != [];
    }
    SubsetSize(at.mem.open.Keys, pt.mem.open.Keys);
    assert |pt.mem.open.Keys| == |pt.mem.open| && |at.mem.open.Keys| == |at.mem.open|;
  }

  /**
   Replay of the files of any point that keeps the invariant, whatever registry it starts from: it never seals
   a day and never changes the log, a crash at any of its writes leaves files that can be replayed again, and
   when it ends without an error the invariant holds with every open sample in the log.
   */
  lemma ReplayNeverSeals(cfg: Config, pt: Point, un: multiset<Sample>, c: Registry)
    requires Inv(cfg, pt, un)
    ensures var out := Replay(cfg, pt.disk, c, pt.disk.wal).out;
            && NeverSealed(cfg, pt, un, out)
            && out.end.disk.wal == pt.disk.wal
            && (out.err.None? ==> Inv(cfg, out.end, multiset{}))
  {
    ReplayTracks(cfg, pt, un, c, |pt.disk.wal|);
    assert pt.disk.wal[..|pt.disk.wal|] == pt.disk.wal;
    hide Replay;
    var out := Replay(cfg, pt.disk, c, pt.disk.wal).out;
    if out.err.None? {
      TrackedIsInv(cfg, pt, un, out.end);
    }
  }
}
