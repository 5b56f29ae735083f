/**
 The pages that a replay makes: it never asks whether a page is full, so a partition's pages are the longest runs of its
 log records above the watermark in which time does not go back, one page a run, and all but the last are written.
 */
module MetricReplayPages {
  import opened Prelude
  import opened Bytes
  import opened Names
  import opened Samples
  import opened MetricRegistry
  import opened MetricEngine
  import opened MetricInvariant
  import opened MetricIngest
  import opened MetricReplay

  // ---------------------------------------------------------------- rising runs

  /** The longest runs of ss in which time does not go back. */
  function Rises(ss: Page): (pages: seq<Page>) {
    if ss == [] then [] else Continued(Rises(ss[..|ss| - 1]), ss[|ss| - 1])
  }

  function Continued(pages: seq<Page>, s: Sample): (r: seq<Page>) {
    if Tail(pages) == [] || s.ts < EndOf(Tail(pages)) then pages + [[s]]
    else Closed(pages) + [Tail(pages) + [s]]
  }

  /** The last run. */
  function Tail(pages: seq<Page>): Page {
    if pages == [] then [] else pages[|pages| - 1]
  }

  /** The runs before the last. */
  function Closed(pages: seq<Page>): seq<Page> {
    if pages == [] then [] else pages[..|pages| - 1]
  }

  lemma RisesSnoc(ss: Page, s: Sample)
    ensures Rises(ss + [s]) == Continued(Rises(ss), s)
  {
    assert (ss + [s])[..|ss|] == ss;
  }

  /** b starts before a ends. */
  predicate Drops(a: Page, b: Page) {
    a != [] && b != [] && b[0].ts < EndOf(a)
  }

  /** Runs in time order, each starting before the end of the one before. */
  ghost predicate AreRuns(pages: seq<Page>) {
    && (forall i :: 0 <= i < |pages| ==> pages[i] != [] && InOrder(pages[i]))
    && (forall i, j :: 0 <= i < |pages| && 0 <= j < |pages| && j == i + 1 ==> Drops(pages[i], pages[j]))
  }

  lemma ContinuedRuns(pages: seq<Page>, s: Sample)
    requires AreRuns(pages)
    ensures AreRuns(Continued(pages, s))
  {
    var next := Continued(pages, s);
    if pages != [] && !(s.ts < EndOf(Tail(pages))) {
      LongerRun(Tail(pages), s);
      var n := |pages| - 1;
      assert forall i :: 0 <= i < n ==> next[i] == pages[i];
      assert n > 0 ==> Drops(pages[n - 1], pages[n]);
    }
  }

  lemma LongerRun(page: Page, s: Sample)
    requires page != [] && InOrder(page) && s.ts >= EndOf(page)
    ensures InOrder(page + [s]) && (page + [s])[0] == page[0]
  {
  }

  lemma ContinuedFlat(pages: seq<Page>, s: Sample)
    ensures Flatten(Continued(pages, s)) == Flatten(pages) + [s]
  {
    if Tail(pages) == [] || s.ts < EndOf(Tail(pages)) {
      FlattenSnoc(pages, [s]);
    } else {
      assert pages == Closed(pages) + [Tail(pages)];
      FlattenSnoc(Closed(pages), Tail(pages));
      FlattenSnoc(Closed(pages), Tail(pages) + [s]);
    }
  }

  /** The runs are in time order, each next one starts before the end of the one before, and together they are ss. */
  lemma {:induction false} RisesAreMaximal(ss: Page)
    ensures Flatten(Rises(ss)) == ss && AreRuns(Rises(ss))
  {
    if ss == [] {
      assert Flatten<Sample>([]) == [];
    } else {
      hide Continued, AreRuns, Flatten;
      var init, s := ss[..|ss| - 1], ss[|ss| - 1];
      RisesAreMaximal(init);
      assert ss == init + [s];
      ContinuedRuns(Rises(init), s);
      ContinuedFlat(Rises(init), s);
    }
  }

  /** A run that is closed stays as it is when more samples follow. */
  lemma {:induction false} ClosedGrows(ss: Page, ts: Page)
    ensures Closed(Rises(ss)) <= Closed(Rises(ss + ts))
    decreases |ts|
  {
    if ts == [] {
      assert ss + ts == ss;
    } else {
      var init, t := ts[..|ts| - 1], ts[|ts| - 1];
      assert ss + ts == (ss + init) + [t];
      RisesSnoc(ss + init, t);
      ClosedGrows(ss, init);
      hide Rises;
      assert Closed(Rises(ss + init)) <= Closed(Continued(Rises(ss + init), t));
    }
  }

  // ---------------------------------------------------------------- the runs of a log

  /** The runs of the log records of partition p above the watermark of its frames. */
  function RunsIn(cfg: Config, d: Disk, p: Part): seq<Page> {
    RunsUpTo(cfg, d, p, |d.wal|)
  }

  /** The same for the first k records. */
  function RunsUpTo(cfg: Config, d: Disk, p: Part, k: nat): seq<Page>
    requires k <= |d.wal|
  {
    Rises(AboveIn(cfg, d.wal[..k], p, Mark(FramesIn(d, p))))
  }

  lemma RunsNext(cfg: Config, d: Disk, p: Part, k: nat)
    requires k < |d.wal|
    ensures var s := d.wal[k].sample;
            RunsUpTo(cfg, d, p, k + 1)
            == if cfg.part(s.ts) == p && !IsDurable(s.ts, Mark(FramesIn(d, p))) then Continued(RunsUpTo(cfg, d, p, k), s)
               else RunsUpTo(cfg, d, p, k)
  {
    hide Rises, IsDurable, Mark, Continued;
    var mark := Mark(FramesIn(d, p));
    AboveInSnoc(cfg, d.wal, k, p, mark);
    var ss, s := AboveIn(cfg, d.wal[..k], p, mark), d.wal[k].sample;
    RisesSnoc(ss, s);
    assert ss + [] == ss;
  }

  lemma {:induction false} AboveInGrows(cfg: Config, ws: seq<Logged>, k: nat, p: Part, mark: Timestamp)
    requires k <= |ws|
    ensures AboveIn(cfg, ws[..k], p, mark) <= AboveIn(cfg, ws, p, mark)
    decreases |ws|
  {
    hide IsDurable;
    if k == |ws| {
      assert ws[..k] == ws;
    } else {
      assert ws[..|ws| - 1][..k] == ws[..k];
      AboveInGrows(cfg, ws[..|ws| - 1], k, p, mark);
    }
  }

  /** The runs closed after k records are the first ones closed in the end. */
  lemma ClosedEarly(cfg: Config, d: Disk, p: Part, k: nat)
    requires k <= |d.wal|
    ensures Closed(RunsUpTo(cfg, d, p, k)) <= Closed(RunsIn(cfg, d, p))
  {
    hide Rises, AboveIn, Closed, Mark;
    var mark := Mark(FramesIn(d, p));
    AboveInGrows(cfg, d.wal, k, p, mark);
    assert d.wal[..|d.wal|] == d.wal;
    var ss, all := AboveIn(cfg, d.wal[..k], p, mark), AboveIn(cfg, d.wal, p, mark);
    assert all == ss + all[|ss|..];
    ClosedGrows(ss, all[|ss|..]);
  }

  // ---------------------------------------------------------------- replay makes them

  /** After k records: the closed runs are written, and the last one is the open page. */
  ghost predicate Shaped(cfg: Config, d: Disk, k: nat, at: Point, p: Part)
    requires k <= |d.wal|
  {
    var runs := RunsUpTo(cfg, d, p, k);
    && FramesIn(at.disk, p) == FramesIn(d, p) + Closed(runs)
    && OpenIn(at.mem, p) == Tail(runs)
    && (p in at.mem.open ==> Tail(runs) != [])
  }

  /** The file of p holds the frames it had and the runs closed after some number of records. */
  ghost predicate Staged(cfg: Config, d: Disk, disk: Disk, p: Part) {
    exists k :: 0 <= k <= |d.wal| && FramesIn(disk, p) == FramesIn(d, p) + Closed(RunsUpTo(cfg, d, p, k))
  }

  ghost predicate AllStaged(cfg: Config, d: Disk, trail: seq<Point>) {
    forall i, p :: 0 <= i < |trail| ==> Staged(cfg, d, trail[i].disk, p)
  }

  lemma ShapedIsStaged(cfg: Config, d: Disk, k: nat, at: Point, p: Part)
    requires k <= |d.wal| && Shaped(cfg, d, k, at, p)
    ensures Staged(cfg, d, at.disk, p)
  {
    hide RunsUpTo;
  }

  lemma ShapedElsewhere(cfg: Config, d: Disk, k: nat, at: Point, next: Point, p: Part)
    requires k <= |d.wal| && Shaped(cfg, d, k, at, p)
    requires FramesIn(next.disk, p) == FramesIn(at.disk, p) && OpenIn(next.mem, p) == OpenIn(at.mem, p)
    requires p in next.mem.open ==> p in at.mem.open
    ensures Shaped(cfg, d, k, next, p)
  {
    hide RunsUpTo;
  }

  /** A record of another partition, or one that is skipped, continues no run of p. */
  lemma ShapedSkips(cfg: Config, d: Disk, k: nat, at: Point, p: Part)
    requires k < |d.wal| && Shaped(cfg, d, k, at, p)
    requires var s := d.wal[k].sample;
             cfg.part(s.ts) != p || IsDurable(s.ts, Mark(FramesIn(d, p)))
    ensures Shaped(cfg, d, k + 1, at, p)
  {
    RunsNext(cfg, d, p, k);
    hide RunsUpTo, IsDurable, Mark;
  }

  /** A record its page takes continues the last run. */
  lemma ShapedPut(cfg: Config, d: Disk, k: nat, at: Point, ready: Point, p: Part)
    requires k < |d.wal| && Shaped(cfg, d, k, at, p)
    requires FramesIn(ready.disk, p) == FramesIn(at.disk, p) && OpenIn(ready.mem, p) == OpenIn(at.mem, p)
    requires var s := d.wal[k].sample;
             cfg.part(s.ts) == p && !IsDurable(s.ts, Mark(FramesIn(d, p))) && !Refuses(ready.mem, p, s.ts)
    ensures Shaped(cfg, d, k + 1, Put(ready, p, d.wal[k].sample), p)
  {
    RunsNext(cfg, d, p, k);
    hide RunsUpTo, IsDurable, Mark, NoteLast;
    var runs, s := RunsUpTo(cfg, d, p, k), d.wal[k].sample;
    assert OpenIn(Put(ready, p, s).mem, p) == Tail(runs) + [s];
    assert [] + [s] == [s];
    if runs != [] {
      RunsNotEmpty(cfg, d, p, k);
    }
  }

  lemma RunsNotEmpty(cfg: Config, d: Disk, p: Part, k: nat)
    requires k <= |d.wal| && RunsUpTo(cfg, d, p, k) != []
    ensures Tail(RunsUpTo(cfg, d, p, k)) != []
  {
    hide Rises;
    RisesAreMaximal(AboveIn(cfg, d.wal[..k], p, Mark(FramesIn(d, p))));
  }

  /** A record its page refuses closes the run and starts the next. */
  lemma ShapedRefused(cfg: Config, d: Disk, k: nat, at: Point, flushed: Point, again: Point, p: Part)
    requires k < |d.wal| && Shaped(cfg, d, k, at, p)
    requires FramesIn(flushed.disk, p) == FramesIn(at.disk, p) + [OpenIn(at.mem, p)]
    requires FramesIn(again.disk, p) == FramesIn(flushed.disk, p) && OpenIn(again.mem, p) == []
    requires var s := d.wal[k].sample;
             cfg.part(s.ts) == p && !IsDurable(s.ts, Mark(FramesIn(d, p))) && Refuses(at.mem, p, s.ts)
    ensures Shaped(cfg, d, k + 1, Put(again, p, d.wal[k].sample), p)
    ensures FramesIn(flushed.disk, p) == FramesIn(d, p) + Closed(RunsUpTo(cfg, d, p, k + 1))
  {
    hide RunsUpTo, IsDurable, Mark, NoteLast;
    RunsNext(cfg, d, p, k);
    var runs, s := RunsUpTo(cfg, d, p, k), d.wal[k].sample;
    NewRun(runs, s);
    PutOpens(again, p, s);
    hide Continued, Put, Closed, Tail;
    assert FramesIn(d, p) + Closed(runs) + [Tail(runs)] == FramesIn(d, p) + (Closed(runs) + [Tail(runs)]);
  }

  lemma NewRun(runs: seq<Page>, s: Sample)
    requires Tail(runs) != [] && s.ts < EndOf(Tail(runs))
    ensures var next := Continued(runs, s);
            Closed(next) == runs == Closed(runs) + [Tail(runs)] && Tail(next) == [s]
  {
  }

  lemma PutOpens(at: Point, p: Part, s: Sample)
    ensures var next := Put(at, p, s);
            next.disk == at.disk && OpenIn(next.mem, p) == OpenIn(at.mem, p) + [s]
  {
    hide NoteLast;
  }

  ghost predicate AllShaped(cfg: Config, d: Disk, k: nat, at: Point)
    requires k <= |d.wal|
  {
    forall p :: Shaped(cfg, d, k, at, p)
  }

  lemma PutElsewhere(at: Point, p: Part, s: Sample, q: Part)
    requires q != p
    ensures var next := Put(at, p, s);
            next.disk == at.disk && OpenIn(next.mem, q) == OpenIn(at.mem, q) && (q in next.mem.open <==> q in at.mem.open)
  {
    hide NoteLast;
  }

  /** Reinserting a record above the watermark: its partition's runs go on, the others stay. */
  lemma ReinsertShapes(cfg: Config, pt: Point, un: multiset<Sample>, k: nat, at: Point)
    requires k < |pt.disk.wal| && Tracking(cfg, pt, un, k, at) && AllShaped(cfg, pt.disk, k, at)
    requires var s := pt.disk.wal[k].sample;
             s.ts >= 0 && OpenIn(pt.mem, cfg.part(s.ts)) != [] && !IsDurable(s.ts, Mark(FramesIn(pt.disk, cfg.part(s.ts))))
    ensures var out := Reinsert(cfg, at, pt.disk.wal[k].sample);
            AllShaped(cfg, pt.disk, k + 1, out.end) && AllStaged(cfg, pt.disk, out.trail)
  {
    hide EnsureDay, Put, Refuses, Tracking, WriteDay, WriteTrail, Shaped, IsDurable, Mark, AllStaged, Stored;
    var d, s := pt.disk, pt.disk.wal[k].sample;
    var p := cfg.part(s.ts);
    EnsureOnlyOpens(cfg, pt, un, k, at, p);
    var ready := EnsureDay(cfg, at, p).end;
    NothingStaged(cfg, d);
    if !Refuses(ready.mem, p, s.ts) {
      TakenShapes(cfg, d, k, at, ready, s);
    } else {
      RefusedHasPage(ready.mem, p, s.ts);
      var flushed := WriteDay(cfg, ready, p);
      WriteTracks(cfg, pt, un, k, ready, p);
      WriteStores(cfg, ready, p);
      EnsureOnlyOpens(cfg, pt, un, k, flushed, p);
      var again := EnsureDay(cfg, flushed, p).end;
      RefusedShapes(cfg, d, k, at, ready, again, s);
      assert [] + WriteTrail(cfg, ready, p) + [] == WriteTrail(cfg, ready, p);
    }
  }

  lemma RefusedHasPage(m: Mem, p: Part, ts: Timestamp)
    requires Refuses(m, p, ts)
    ensures OpenIn(m, p) != []
  {
  }

  lemma NothingStaged(cfg: Config, d: Disk)
    ensures AllStaged(cfg, d, [])
  {
  }

  lemma TakenShapes(cfg: Config, d: Disk, k: nat, at: Point, ready: Point, s: Sample)
    requires k < |d.wal| && s == d.wal[k].sample && AllShaped(cfg, d, k, at)
    requires ready.disk == at.disk && ready.mem.open.Keys == at.mem.open.Keys + {cfg.part(s.ts)}
    requires forall q :: OpenIn(ready.mem, q) == OpenIn(at.mem, q)
    requires !Refuses(ready.mem, cfg.part(s.ts), s.ts) && !IsDurable(s.ts, Mark(FramesIn(d, cfg.part(s.ts))))
    ensures AllShaped(cfg, d, k + 1, Put(ready, cfg.part(s.ts), s))
  {
    hide Put, Refuses, Shaped, IsDurable, Mark, OpenIn;
    var p, next := cfg.part(s.ts), k + 1;
    forall q ensures Shaped(cfg, d, next, Put(ready, p, s), q) {
      if q == p {
        ShapedPut(cfg, d, k, at, ready, p);
      } else {
        PutElsewhere(ready, p, s, q);
        ShapedSkips(cfg, d, k, at, q);
        ShapedElsewhere(cfg, d, next, at, Put(ready, p, s), q);
      }
    }
  }

  /** The disks of a page flush: the frame, and the registry after it. */
  lemma WriteFiles(cfg: Config, at: Point, p: Part)
    ensures var flushed, trail := WriteDay(cfg, at, p), WriteTrail(cfg, at, p);
            && flushed.disk.files == FlushDay(at, p).disk.files
            && (forall i :: 0 <= i < |trail| ==> trail[i].disk.files == flushed.disk.files)
            && (OpenIn(at.mem, p) != [] ==> FramesIn(flushed.disk, p) == FramesIn(at.disk, p) + [OpenIn(at.mem, p)])
            && (forall q :: q != p ==> FramesIn(flushed.disk, q) == FramesIn(at.disk, q) && OpenIn(flushed.mem, q) == OpenIn(at.mem, q))
            && OpenIn(flushed.mem, p) == []
  {
    hide Listing;
  }

  lemma RefusedShapes(cfg: Config, d: Disk, k: nat, at: Point, ready: Point, again: Point, s: Sample)
    requires k < |d.wal| && s == d.wal[k].sample && AllShaped(cfg, d, k, at)
    requires ready.disk == at.disk && ready.mem.open.Keys == at.mem.open.Keys + {cfg.part(s.ts)}
    requires forall q :: OpenIn(ready.mem, q) == OpenIn(at.mem, q)
    requires Refuses(ready.mem, cfg.part(s.ts), s.ts) && !IsDurable(s.ts, Mark(FramesIn(d, cfg.part(s.ts))))
    requires var flushed := WriteDay(cfg, ready, cfg.part(s.ts));
             && again.disk == flushed.disk && again.mem.open.Keys == flushed.mem.open.Keys + {cfg.part(s.ts)}
             && flushed.mem.open == ready.mem.open - {cfg.part(s.ts)}
             && forall q :: OpenIn(again.mem, q) == OpenIn(flushed.mem, q)
    ensures AllShaped(cfg, d, k + 1, Put(again, cfg.part(s.ts), s))
    ensures AllStaged(cfg, d, WriteTrail(cfg, ready, cfg.part(s.ts)))
  {
    hide Put, Shaped, IsDurable, Mark, WriteDay, WriteTrail, FlushDay, OpenIn, FramesIn, RunsUpTo;
    var p, next := cfg.part(s.ts), k + 1;
    var flushed := WriteDay(cfg, ready, p);
    WriteFiles(cfg, ready, p);
    SameFiles(again.disk, flushed.disk);
    SameFiles(ready.disk, at.disk);
    ShapedRefused(cfg, d, k, at, flushed, again, p);
    forall q ensures Shaped(cfg, d, next, Put(again, p, s), q) && Staged(cfg, d, flushed.disk, q) {
      if q == p {
        assert Staged(cfg, d, flushed.disk, p);
      } else {
        PutElsewhere(again, p, s, q);
        ShapedSkips(cfg, d, k, at, q);
        ShapedElsewhere(cfg, d, next, at, Put(again, p, s), q);
        ShapedElsewhere(cfg, d, next, at, flushed, q);
        ShapedIsStaged(cfg, d, next, flushed, q);
      }
    }
    StagedTrail(cfg, d, flushed.disk, WriteTrail(cfg, ready, p));
  }

  lemma SameFiles(a: Disk, b: Disk)
    requires a.files == b.files
    ensures forall q :: FramesIn(a, q) == FramesIn(b, q)
  {
  }

  lemma StagedTrail(cfg: Config, d: Disk, disk: Disk, trail: seq<Point>)
    requires forall p :: Staged(cfg, d, disk, p)
    requires forall i :: 0 <= i < |trail| ==> trail[i].disk.files == disk.files
    ensures AllStaged(cfg, d, trail)
  {
    hide RunsUpTo;
    forall i, p | 0 <= i < |trail| ensures Staged(cfg, d, trail[i].disk, p) {
      assert Staged(cfg, d, disk, p);
      SameFiles(trail[i].disk, disk);
    }
  }

  lemma AllStagedAppend(cfg: Config, d: Disk, a: seq<Point>, b: seq<Point>)
    requires AllStaged(cfg, d, a) && AllStaged(cfg, d, b)
    ensures AllStaged(cfg, d, a + b)
  {
    hide Staged;
  }

  lemma SkippedShapes(cfg: Config, d: Disk, k: nat, at: Point)
    requires k < |d.wal| && AllShaped(cfg, d, k, at)
    requires IsDurable(d.wal[k].sample.ts, Mark(FramesIn(d, cfg.part(d.wal[k].sample.ts))))
    ensures AllShaped(cfg, d, k + 1, at)
  {
    hide Shaped, IsDurable, Mark;
    var next := k + 1;
    forall p ensures Shaped(cfg, d, next, at, p) {
      ShapedSkips(cfg, d, k, at, p);
    }
  }

  lemma NamedShapes(cfg: Config, d: Disk, k: nat, at: Point, c: Registry)
    requires k <= |d.wal| && AllShaped(cfg, d, k, at)
    ensures AllShaped(cfg, d, k, at.(mem := at.mem.(cat := c)))
  {
    hide Shaped;
    var next := at.(mem := at.mem.(cat := c));
    forall p ensures Shaped(cfg, d, k, next, p) {
      ShapedElsewhere(cfg, d, k, at, next, p);
    }
  }

  lemma ShapedEnd(cfg: Config, d: Disk, k: nat, at: Point)
    requires k <= |d.wal| && AllShaped(cfg, d, k, at)
    ensures AllStaged(cfg, d, [at])
  {
    hide Shaped, Staged;
    forall p ensures Staged(cfg, d, at.disk, p) {
      ShapedIsStaged(cfg, d, k, at, p);
    }
  }

  lemma TurnShapes(cfg: Config, pt: Point, un: multiset<Sample>, k: nat, prev: Replayed)
    requires k < |pt.disk.wal| && Inv(cfg, pt, un)
    requires Tracking(cfg, pt, un, k, prev.out.end) && Resuming(cfg, pt, un, prev) && prev.out.err.None?
    requires AllShaped(cfg, pt.disk, k, prev.out.end) && AllStaged(cfg, pt.disk, prev.out.trail)
    ensures var r := ReplayOne(cfg, prev, pt.disk.wal[k]);
            && AllStaged(cfg, pt.disk, r.out.trail) && AllStaged(cfg, pt.disk, [r.out.end])
            && (r.out.err.None? ==> AllShaped(cfg, pt.disk, k + 1, r.out.end))
  {
    hide Tracking, Reinsert, NameRecord, IsDurable, Mark, AllShaped, AllStaged, CrashOk, Inv;
    ResumeTurn(cfg, pt, un, k, prev);
    var at, w := prev.out.end, pt.disk.wal[k];
    ShapedEnd(cfg, pt.disk, k, at);
    if NameRecord(at.mem.cat, w).Ok? {
      var named := at.(mem := at.mem.(cat := NameRecord(at.mem.cat, w).value));
      NameTracks(cfg, pt, un, k, at, named.mem.cat);
      NamedShapes(cfg, pt.disk, k, at, named.mem.cat);
      CoveredRecord(cfg, pt, un, k);
      var mark := MarkOf(prev.marks, at.disk, cfg.part(w.sample.ts));
      assert mark == Mark(FramesIn(pt.disk, cfg.part(w.sample.ts)));
      if IsDurable(w.sample.ts, mark) {
        SkippedShapes(cfg, pt.disk, k, named);
        ShapedEnd(cfg, pt.disk, k + 1, named);
      } else {
        ReinsertShapes(cfg, pt, un, k, named);
        ShapedEnd(cfg, pt.disk, k + 1, Reinsert(cfg, named, w.sample).end);
        AllStagedAppend(cfg, pt.disk, prev.out.trail, Reinsert(cfg, named, w.sample).trail);
      }
    }
  }

  lemma ShapedStart(cfg: Config, d: Disk, c: Registry)
    ensures AllShaped(cfg, d, 0, Point(d, Mem(c, map[], {}))) && AllStaged(cfg, d, [])
  {
    hide Mark;
    assert d.wal[..0] == [];
  }

  lemma {:induction false} ReplayShapes(cfg: Config, pt: Point, un: multiset<Sample>, c: Registry, k: nat)
    requires k <= |pt.disk.wal| && Inv(cfg, pt, un)
    ensures var out := Replay(cfg, pt.disk, c, pt.disk.wal[..k]).out;
            && AllStaged(cfg, pt.disk, out.trail) && AllStaged(cfg, pt.disk, [out.end])
            && (out.err.None? ==> AllShaped(cfg, pt.disk, k, out.end))
  {
    hide Tracking, Resuming, NeverSealed, ReplayOne, Inv, AllShaped, AllStaged;
    if k == 0 {
      ShapedStart(cfg, pt.disk, c);
      ShapedEnd(cfg, pt.disk, 0, Point(pt.disk, Mem(c, map[], {})));
    } else {
      assert pt.disk.wal[..k][..k - 1] == pt.disk.wal[..k - 1];
      ReplayShapes(cfg, pt, un, c, k - 1);
      var prev := Replay(cfg, pt.disk, c, pt.disk.wal[..k - 1]);
      if prev.out.err.None? {
        ReplayTracks(cfg, pt, un, c, k - 1);
        TurnShapes(cfg, pt, un, k - 1, prev);
      }
    }
  }

  /**
   From the files of any point that keeps the invariant: replay writes every run of a partition but the last as a frame
   of its own, in order, and leaves the last one open, whatever the limits of a page.
   */
  lemma ReplayMakesRuns(cfg: Config, pt: Point, un: multiset<Sample>, c: Registry, p: Part)
    requires Inv(cfg, pt, un)
    ensures var out, runs := Replay(cfg, pt.disk, c, pt.disk.wal).out, RunsIn(cfg, pt.disk, p);
            && AllStaged(cfg, pt.disk, out.trail) && AllStaged(cfg, pt.disk, [out.end])
            && (out.err.None? ==>
                  && FramesIn(out.end.disk, p) == FramesIn(pt.disk, p) + Closed(runs)
                  && OpenIn(out.end.mem, p) == Tail(runs) && (p in out.end.mem.open ==> Tail(runs) != []))
  {
    ReplayShapes(cfg, pt, un, c, |pt.disk.wal|);
    assert pt.disk.wal[..|pt.disk.wal|] == pt.disk.wal;
    hide Replay, RunsUpTo;
    var out := Replay(cfg, pt.disk, c, pt.disk.wal).out;
    if out.err.None? {
      assert Shaped(cfg, pt.disk, |pt.disk.wal|, out.end, p);
    }
  }
}
