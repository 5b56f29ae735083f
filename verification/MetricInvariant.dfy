/** What every durable write of metric ingest keeps. */
module MetricInvariant {
  import opened Prelude
  import opened Bytes
  import opened Names
  import opened Samples
  import opened MetricRegistry
  import opened MetricEngine

  /** A page of partition p: not empty, in time order, with no negative time. */
  ghost predicate PageOk(cfg: Config, p: Part, page: Page) {
    page != [] && InOrder(page) && forall s :: s in page ==> cfg.part(s.ts) == p && s.ts >= 0
  }

  ghost predicate FilesOk(cfg: Config, files: map<Part, seq<Page>>) {
    forall p, i :: p in files && 0 <= i < |files[p]| ==> PageOk(cfg, p, files[p][i])
  }

  ghost predicate OpenOk(cfg: Config, m: Mem) {
    forall p :: p in m.open && m.open[p].Some? ==> PageOk(cfg, p, m.open[p].value)
  }

  /** Never more open days than the setting allows, and no day both open and sealed. */
  ghost predicate DaysOk(cfg: Config, m: Mem) {
    |m.open| <= cfg.MaxActive() && m.open.Keys !! m.sealed
  }

  predicate IsAbove(ts: Timestamp, frames: seq<Page>) {
    !IsDurable(ts, Mark(frames))
  }

  /** A log record above its partition's watermark is not past the end of the partition's open page. */
  ghost predicate RecordCovered(cfg: Config, at: Point, w: Logged) {
    var p := cfg.part(w.sample.ts);
    && w.sample.ts >= 0
    && (IsAbove(w.sample.ts, FramesIn(at.disk, p)) ==>
          OpenIn(at.mem, p) != [] && w.sample.ts <= EndOf(OpenIn(at.mem, p)))
  }

  ghost predicate Covered(cfg: Config, at: Point) {
    forall w :: w in at.disk.wal ==> RecordCovered(cfg, at, w)
  }

  /** The samples logged for partition p. */
  function LoggedIn(cfg: Config, ws: seq<Logged>, p: Part): (rs: Page) {
    if ws == [] then []
    else
      var s := ws[|ws| - 1].sample;
      LoggedIn(cfg, ws[..|ws| - 1], p) + if cfg.part(s.ts) == p then [s] else []
  }

  /** Open samples are still in the log, but for those accepted without logging. */
  ghost predicate Backed(cfg: Config, at: Point, p: Part, unlogged: multiset<Sample>) {
    multiset(OpenIn(at.mem, p)) <= multiset(LoggedIn(cfg, at.disk.wal, p)) + unlogged
  }

  ghost predicate Inv(cfg: Config, at: Point, unlogged: multiset<Sample>) {
    && FilesOk(cfg, at.disk.files)
    && OpenOk(cfg, at.mem)
    && DaysOk(cfg, at.mem)
    && Covered(cfg, at)
    && (forall p :: Backed(cfg, at, p, unlogged))
  }

  /** Everything a partition stores: its frames in order, then its open page. */
  function Stored(at: Point, p: Part): Page {
    Flatten(FramesIn(at.disk, p)) + OpenIn(at.mem, p)
  }

  /** pt stores what `from` stored, and no sealed day of `from` is reopened. */
  ghost predicate Same(from: Point, pt: Point) {
    && (forall p :: Stored(pt, p) == Stored(from, p))
    && from.mem.sealed <= pt.mem.sealed
  }

  // ---------------------------------------------------------------- watermarks

  lemma MaxEndSnoc(frames: seq<Page>, page: Page)
    requires page != []
    ensures var w, w' := MaxEnd(frames), MaxEnd(frames + [page]);
            w'.Some? && w'.value >= EndOf(page) && (w.Some? ==> w'.value >= w.value)
  {
    assert (frames + [page])[..|frames|] == frames;
  }

  /** A flushed page puts the watermark at or past its end, and the watermark never falls. */
  lemma MarkRises(frames: seq<Page>, page: Page)
    requires page != [] && EndOf(page) >= 0
    ensures Mark(frames + [page]) >= EndOf(page)
    ensures forall ts: Timestamp :: ts >= 0 && IsDurable(ts, Mark(frames)) ==> IsDurable(ts, Mark(frames + [page]))
  {
    MaxEndSnoc(frames, page);
  }

  lemma LoggedInSnoc(cfg: Config, ws: seq<Logged>, w: Logged, p: Part)
    ensures LoggedIn(cfg, ws + [w], p) == LoggedIn(cfg, ws, p) + if cfg.part(w.sample.ts) == p then [w.sample] else []
  {
    assert (ws + [w])[..|ws|] == ws;
  }

  // ---------------------------------------------------------------- flushing a day

  lemma FlushStores(at: Point, q: Part, p: Part)
    ensures Stored(FlushDay(at, q), p) == Stored(at, p)
  {
    if p == q && OpenIn(at.mem, q) != [] {
      FlattenSnoc(FramesIn(at.disk, q), OpenIn(at.mem, q));
    }
    hide Flatten;
  }

  lemma OpenPageOk(cfg: Config, m: Mem, p: Part)
    requires OpenOk(cfg, m) && OpenIn(m, p) != []
    ensures PageOk(cfg, p, OpenIn(m, p)) && EndOf(OpenIn(m, p)) >= 0
  {
    assert OpenIn(m, p)[|OpenIn(m, p)| - 1] in OpenIn(m, p);
  }

  lemma FlushCovers(cfg: Config, at: Point, q: Part, w: Logged)
    requires OpenOk(cfg, at.mem) && RecordCovered(cfg, at, w)
    ensures RecordCovered(cfg, FlushDay(at, q), w)
  {
    var page := OpenIn(at.mem, q);
    if page != [] && cfg.part(w.sample.ts) == q {
      OpenPageOk(cfg, at.mem, q);
      MarkRises(FramesIn(at.disk, q), page);
    }
  }

  lemma FlushFiles(cfg: Config, at: Point, q: Part)
    requires FilesOk(cfg, at.disk.files) && OpenOk(cfg, at.mem)
    ensures FilesOk(cfg, FlushDay(at, q).disk.files)
  {
    var next := FlushDay(at, q);
    if OpenIn(at.mem, q) != [] {
      OpenPageOk(cfg, at.mem, q);
      forall p, i | p in next.disk.files && 0 <= i < |next.disk.files[p]| ensures PageOk(cfg, p, next.disk.files[p][i]) {
        if p != q || i < |FramesIn(at.disk, p)| {
          assert next.disk.files[p][i] == at.disk.files[p][i];
        }
      }
    }
  }

  lemma FewerKeys(open: map<Part, Option<Page>>, q: Part)
    ensures |open - {q}| <= |open| && (q in open ==> |open - {q}| == |open| - 1)
  {
    var rest := open - {q};
    if q in open {
      assert open.Keys == rest.Keys + {q};
      assert |rest.Keys| == |rest| && |open.Keys| == |open|;
    } else {
      assert rest == open;
    }
  }

  /** Flushing a day keeps the invariant and moves no sample in or out of storage. */
  lemma FlushKeeps(cfg: Config, at: Point, un: multiset<Sample>, q: Part)
    requires Inv(cfg, at, un)
    ensures Inv(cfg, FlushDay(at, q), un) && Same(at, FlushDay(at, q))
  {
    hide PageOk, RecordCovered, Stored, LoggedIn;
    var next := FlushDay(at, q);
    FlushFiles(cfg, at, q);
    FewerKeys(at.mem.open, q);
    forall w | w in next.disk.wal ensures RecordCovered(cfg, next, w) {
      FlushCovers(cfg, at, q, w);
    }
    forall p ensures Backed(cfg, next, p, un) && Stored(next, p) == Stored(at, p) {
      assert Backed(cfg, at, p, un);
      FlushStores(at, q, p);
    }
  }

  // ---------------------------------------------------------------- resetting, opening, sealing

  /** The invariant does not look at catalog.json or at the registry. */
  lemma RelabelKeeps(cfg: Config, at: Point, un: multiset<Sample>, saved: seq<SavedMetric>, c: Registry)
    requires Inv(cfg, at, un)
    ensures var next := Point(at.disk.(saved := saved), at.mem.(cat := c));
            Inv(cfg, next, un) && Same(at, next)
  {
    hide PageOk, IsAbove, LoggedIn, EndOf;
    var next := Point(at.disk.(saved := saved), at.mem.(cat := c));
    forall q ensures Backed(cfg, next, q, un) {
      assert Backed(cfg, at, q, un);
    }
    forall w | w in next.disk.wal ensures RecordCovered(cfg, next, w) {
      assert RecordCovered(cfg, at, w);
    }
  }

  lemma SaveKeeps(cfg: Config, at: Point, un: multiset<Sample>)
    requires Inv(cfg, at, un)
    ensures Inv(cfg, SaveIfDirty(at), un) && Same(at, SaveIfDirty(at))
    ensures SaveIfDirty(at).mem.open == at.mem.open && SaveIfDirty(at).mem.sealed == at.mem.sealed
  {
    hide Inv, Listing;
    if at.mem.cat.dirty {
      RelabelKeeps(cfg, at, un, Listing(at.mem.cat), at.mem.cat.(dirty := false));
    }
  }

  /** The log is truncated only when no page is open, and then nothing in it is above a watermark. */
  lemma ResetKeeps(cfg: Config, at: Point, un: multiset<Sample>)
    requires Inv(cfg, at, un)
    ensures Inv(cfg, MaybeReset(cfg, at), un) && Same(at, MaybeReset(cfg, at))
    ensures MaybeReset(cfg, at).mem.open == at.mem.open && MaybeReset(cfg, at).mem.sealed == at.mem.sealed
    ensures MayReset(cfg, at) ==> forall w :: w in at.disk.wal ==> !IsAbove(w.sample.ts, FramesIn(at.disk, cfg.part(w.sample.ts)))
  {
    hide Listing;
    if MayReset(cfg, at) {
      SaveKeeps(cfg, at, un);
      TruncateKeeps(cfg, SaveIfDirty(at), un);
    }
  }

  lemma TruncateKeeps(cfg: Config, at: Point, un: multiset<Sample>)
    requires Inv(cfg, at, un) && !AnyPage(at.mem)
    ensures Inv(cfg, Truncate(at), un) && Same(at, Truncate(at))
  {
    forall p ensures Backed(cfg, Truncate(at), p, un) {
      assert OpenIn(at.mem, p) == [];
    }
  }

  lemma OpenKeeps(cfg: Config, at: Point, un: multiset<Sample>, p: Part)
    requires Inv(cfg, at, un) && p !in at.mem.open && p !in at.mem.sealed && |at.mem.open| < cfg.MaxActive()
    ensures var next := at.(mem := at.mem.(open := at.mem.open[p := None]));
            Inv(cfg, next, un) && Same(at, next)
  {
    hide PageOk, IsAbove, LoggedIn;
    var next := at.(mem := at.mem.(open := at.mem.open[p := None]));
    assert next.mem.open.Keys == at.mem.open.Keys + {p};
    assert |next.mem.open| == |next.mem.open.Keys|;
    forall q ensures OpenIn(next.mem, q) == OpenIn(at.mem, q) && Backed(cfg, next, q, un) {
      assert Backed(cfg, at, q, un);
    }
    forall w | w in next.disk.wal ensures RecordCovered(cfg, next, w) {
      assert RecordCovered(cfg, at, w);
    }
  }

  lemma MarkSealedKeeps(cfg: Config, at: Point, un: multiset<Sample>, p: Part)
    requires Inv(cfg, at, un) && p !in at.mem.open
    ensures var next := at.(mem := at.mem.(sealed := at.mem.sealed + {p}));
            Inv(cfg, next, un) && Same(at, next)
  {
    hide PageOk, IsAbove, LoggedIn, EndOf;
    var next := at.(mem := at.mem.(sealed := at.mem.sealed + {p}));
    forall q ensures Backed(cfg, next, q, un) {
      assert Backed(cfg, at, q, un);
    }
    forall w | w in next.disk.wal ensures RecordCovered(cfg, next, w) {
      assert RecordCovered(cfg, at, w);
    }
  }

  // ---------------------------------------------------------------- logging and putting

  /** A record refused by its page is logged all the same; it is below the page's end. */
  lemma PhantomKeeps(cfg: Config, at: Point, un: multiset<Sample>, w: Option<Logged>)
    requires Inv(cfg, at, un)
    requires w.Some? ==> w.value.sample.ts >= 0 && Refuses(at.mem, cfg.part(w.value.sample.ts), w.value.sample.ts)
    ensures Inv(cfg, AppendLog(at, w), un) && Same(at, AppendLog(at, w))
  {
    hide PageOk, IsAbove, LoggedIn;
    var next := AppendLog(at, w);
    if w.Some? {
      forall p ensures Backed(cfg, next, p, un) {
        assert Backed(cfg, at, p, un);
        LoggedInSnoc(cfg, at.disk.wal, w.value, p);
      }
      forall x | x in next.disk.wal ensures RecordCovered(cfg, next, x) {
        if x in at.disk.wal {
          assert RecordCovered(cfg, at, x);
        }
      }
    } else {
      assert next == at;
    }
  }

  ghost function Unlogged(w: Option<Logged>, s: Sample): multiset<Sample> {
    if w.None? then multiset{s} else multiset{}
  }

  lemma PutCovers(cfg: Config, at: Point, w: Option<Logged>, s: Sample, x: Logged)
    requires var p := cfg.part(s.ts);
             s.ts >= 0 && !Refuses(at.mem, p, s.ts)
    requires w.Some? ==> w.value.sample == s
    requires (x in at.disk.wal && RecordCovered(cfg, at, x)) || w == Some(x)
    ensures RecordCovered(cfg, Put(AppendLog(at, w), cfg.part(s.ts), s), x)
  {
    hide IsAbove;
  }

  lemma PutOpen(at: Point, w: Option<Logged>, p: Part, s: Sample, q: Part)
    ensures OpenIn(Put(AppendLog(at, w), p, s).mem, q) == OpenIn(at.mem, q) + if q == p then [s] else []
  {
    hide NoteLast;
  }

  lemma PutBacked(cfg: Config, at: Point, un: multiset<Sample>, w: Option<Logged>, s: Sample, q: Part)
    requires Backed(cfg, at, q, un) && (w.Some? ==> w.value.sample == s)
    ensures Backed(cfg, Put(AppendLog(at, w), cfg.part(s.ts), s), q, un + Unlogged(w, s))
  {
    hide LoggedIn, OpenIn, NoteLast;
    PutOpen(at, w, cfg.part(s.ts), s, q);
    if w.Some? {
      LoggedInSnoc(cfg, at.disk.wal, w.value, q);
    } else {
      assert AppendLog(at, w) == at;
    }
  }

  lemma PutPageOk(cfg: Config, at: Point, s: Sample, p: Part)
    requires OpenOk(cfg, at.mem) && p == cfg.part(s.ts) && s.ts >= 0 && !Refuses(at.mem, p, s.ts)
    ensures PageOk(cfg, p, OpenIn(at.mem, p) + [s])
  {
    var page := OpenIn(at.mem, p);
    if page != [] {
      OpenPageOk(cfg, at.mem, p);
    }
  }

  /** Logging a sample and putting it on its page keeps the invariant and adds exactly that sample. */
  lemma PutKeeps(cfg: Config, at: Point, un: multiset<Sample>, w: Option<Logged>, s: Sample)
    requires var p := cfg.part(s.ts);
             && Inv(cfg, at, un) && s.ts >= 0 && !Refuses(at.mem, p, s.ts)
             && (p in at.mem.open || (|at.mem.open| < cfg.MaxActive() && p !in at.mem.sealed))
    requires w.Some? ==> w.value.sample == s
    ensures var next := Put(AppendLog(at, w), cfg.part(s.ts), s);
            && Inv(cfg, next, un + Unlogged(w, s)) && next.mem.sealed == at.mem.sealed
            && forall q :: Stored(next, q) == Stored(at, q) + if q == cfg.part(s.ts) then [s] else []
  {
    hide PageOk, RecordCovered, LoggedIn, Refuses, Flatten, NoteLast, Backed;
    var p := cfg.part(s.ts);
    var next := Put(AppendLog(at, w), p, s);
    PutPageOk(cfg, at, s, p);
    assert next.mem.open.Keys == at.mem.open.Keys + {p};
    assert |next.mem.open| == |next.mem.open.Keys|;
    forall q ensures Backed(cfg, next, q, un + Unlogged(w, s)) {
      PutBacked(cfg, at, un, w, s, q);
    }
    forall x | x in next.disk.wal ensures RecordCovered(cfg, next, x) {
      PutCovers(cfg, at, w, s, x);
    }
  }

  lemma {:induction false} LoggedMember(cfg: Config, ws: seq<Logged>, w: Logged)
    requires w in ws
    ensures w.sample in LoggedIn(cfg, ws, cfg.part(w.sample.ts))
  {
    if w != ws[|ws| - 1] {
      assert ws == ws[..|ws| - 1] + [ws[|ws| - 1]];
      LoggedMember(cfg, ws[..|ws| - 1], w);
    }
  }

  /** Putting a sample on a fresh page after its log record is already written. */
  lemma RetryKeeps(cfg: Config, at: Point, un: multiset<Sample>, w: Option<Logged>, s: Sample)
    requires var p := cfg.part(s.ts);
             && Inv(cfg, at, un) && s.ts >= 0 && OpenIn(at.mem, p) == []
             && (p in at.mem.open || (|at.mem.open| < cfg.MaxActive() && p !in at.mem.sealed))
    requires w.Some? ==> w.value.sample == s && w.value in at.disk.wal
    ensures var next := Put(at, cfg.part(s.ts), s);
            && Inv(cfg, next, un + Unlogged(w, s)) && next.mem.sealed == at.mem.sealed
            && forall q :: Stored(next, q) == Stored(at, q) + if q == cfg.part(s.ts) then [s] else []
  {
    hide PageOk, RecordCovered, LoggedIn, Flatten, NoteLast;
    var p := cfg.part(s.ts);
    var next := Put(at, p, s);
    assert AppendLog(at, None) == at;
    PutKeeps(cfg, at, un, None, s);
    if w.Some? {
      LoggedMember(cfg, at.disk.wal, w.value);
      assert un + Unlogged(w, s) == un;
      forall q ensures Backed(cfg, next, q, un) {
        assert Backed(cfg, at, q, un);
        assert q == p ==> OpenIn(next.mem, q) == [s];
      }
    }
  }
}
