/**
 What can be read back: the record count of a frame is a 16-bit field, so a page of 65536 samples or more becomes a frame
 that no reader decodes. When that happens, told from the files before the database is opened, and what every partition
 file reads back as when it does not.
 */
module MetricReadable {
  import opened Prelude
  import opened Bytes
  import opened Names
  import opened Frames
  import opened Codec
  import opened Samples
  import opened DataPages
  import opened Recompact
  import opened MetricRegistry
  import opened MetricEngine
  import opened MetricInvariant
  import opened MetricIngest
  import opened MetricReplay
  import opened MetricReplayPages
  import opened MetricRuns
  import opened MetricRecovery
  import opened MetricWidths
  import MetricDatabase

  /** The samples a partition file reads back as; None when some frame of it does not decode. */
  ghost function ReadBack(codec: Codec, d: Disk, p: Part): Option<Page> {
    match ReadPages(codec, FileBytes(codec, FramesIn(d, p)))
    case Failed(_) => None
    case Scanned(pages, _, _) => Some(SamplesOf(pages))
  }

  // ---------------------------------------------------------------- one set of files

  lemma FramesEncodable(cfg: Config, d: Disk, p: Part)
    requires FilesOk(cfg, d.files) && SaneDisk(d)
    ensures AllEncodable(FramesIn(d, p))
  {
    hide AllValid, InOrder;
    forall i | 0 <= i < |FramesIn(d, p)| ensures Encodable(FramesIn(d, p)[i]) {
      assert PageOk(cfg, p, d.files[p][i]);
    }
  }

  lemma ReadsIff(cfg: Config, codec: Codec, d: Disk, p: Part)
    requires Capable(codec) && FilesOk(cfg, d.files) && SaneDisk(d)
    ensures ReadBack(codec, d, p) == if AllNarrow(FramesIn(d, p)) then Some(Flatten(FramesIn(d, p))) else None
  {
    hide ReadPages, FileBytes, FilesOk, SaneDisk, Capable, AllEncodable, Narrow, SamplesOf, Flatten;
    FramesEncodable(cfg, d, p);
    FileReadsIff(codec, FramesIn(d, p));
    if AllNarrow(FramesIn(d, p)) {
      SamplesOfStored(FramesIn(d, p));
    }
  }

  lemma InvFiles(cfg: Config, pt: Point, un: multiset<Sample>)
    requires Inv(cfg, pt, un)
    ensures FilesOk(cfg, pt.disk.files)
  {
  }

  lemma SoundFiles(cfg: Config, d: Disk)
    requires Sound(cfg, d)
    ensures FilesOk(cfg, d.files)
  {
    hide Inv;
    var pt: Point, un: multiset<Sample> :| pt.disk == d && Inv(cfg, pt, un);
    InvFiles(cfg, pt, un);
  }

  // ---------------------------------------------------------------- replay keeps the fields

  ghost predicate AllSane(trail: seq<Point>) {
    forall k :: 0 <= k < |trail| ==> SaneDisk(trail[k].disk)
  }

  lemma AllSaneAppend(a: seq<Point>, b: seq<Point>)
    requires AllSane(a) && AllSane(b)
    ensures AllSane(a + b)
  {
    hide SaneDisk;
  }

  lemma FineIsSane(cfg: Config, from: Point, at: Point, busy: Option<Part>, trail: seq<Point>)
    requires Fine(cfg, from, at, busy) && AllFine(cfg, from, trail)
    ensures Sane(at) && AllSane(trail)
  {
    hide Sized, Sane, SaneDisk;
  }

  lemma EnsureSane(cfg: Config, at: Point, p: Part)
    requires Sane(at)
    ensures Sane(EnsureDay(cfg, at, p).end) && AllSane(EnsureDay(cfg, at, p).trail)
  {
    hide Sane, Fine, AllFine, EnsureDay;
    FineStart(cfg, at);
    FineEnsure(cfg, at, at, p);
    FineIsSane(cfg, at, EnsureDay(cfg, at, p).end, None, EnsureDay(cfg, at, p).trail);
  }

  lemma WriteSane(cfg: Config, at: Point, p: Part)
    requires Sane(at)
    ensures Sane(WriteDay(cfg, at, p)) && AllSane(WriteTrail(cfg, at, p))
  {
    hide Sane, Fine, AllFine, WriteDay, WriteTrail;
    FineStart(cfg, at);
    FineWrite(cfg, at, at, None, p);
    FineIsSane(cfg, at, WriteDay(cfg, at, p), None, WriteTrail(cfg, at, p));
  }

  lemma PutSane(cfg: Config, at: Point, p: Part, s: Sample)
    requires Sane(at) && ValidSample(s)
    ensures Sane(Put(at, p, s))
  {
    hide Sane, Fine, AllFine, Put;
    FineStart(cfg, at);
    FinePut(cfg, at, at, p, s);
    FineNone(cfg, at);
    FineIsSane(cfg, at, Put(at, p, s), Some(p), []);
  }

  lemma ReinsertSane(cfg: Config, at: Point, s: Sample)
    requires Sane(at) && ValidSample(s)
    ensures Sane(Reinsert(cfg, at, s).end) && AllSane(Reinsert(cfg, at, s).trail)
  {
    hide Sane, AllSane, EnsureDay, Put, WriteDay, WriteTrail, Refuses, ValidSample;
    var p := cfg.part(s.ts);
    EnsureSane(cfg, at, p);
    var ready := EnsureDay(cfg, at, p);
    PutSane(cfg, ready.end, p, s);
    WriteSane(cfg, ready.end, p);
    var flushed := WriteDay(cfg, ready.end, p);
    EnsureSane(cfg, flushed, p);
    var again := EnsureDay(cfg, flushed, p);
    PutSane(cfg, again.end, p, s);
    AllSaneAppend(ready.trail, WriteTrail(cfg, ready.end, p));
    AllSaneAppend(ready.trail + WriteTrail(cfg, ready.end, p), again.trail);
  }

  lemma NamedSane(c: Registry, w: Logged)
    requires SaneRegistry(c) && SaneRecord(w) && NameRecord(c, w).Ok?
    ensures SaneRegistry(NameRecord(c, w).value)
  {
    hide IsBlank;
  }

  lemma RenamedSane(at: Point, c: Registry)
    requires Sane(at) && SaneRegistry(c)
    ensures Sane(at.(mem := at.mem.(cat := c)))
  {
    hide AllValid, SaneDisk, SaneRegistry;
    var next := at.(mem := at.mem.(cat := c));
    assert forall p :: OpenIn(next.mem, p) == OpenIn(at.mem, p);
  }

  lemma TurnSane(cfg: Config, prev: Replayed, w: Logged)
    requires Sane(prev.out.end) && AllSane(prev.out.trail) && SaneRecord(w)
    ensures var out := ReplayOne(cfg, prev, w).out;
            Sane(out.end) && AllSane(out.trail)
  {
    hide AllSane, NameRecord, Reinsert, MarkOf, IsDurable, ValidSample;
    var at := prev.out.end;
    if NameRecord(at.mem.cat, w).Ok? {
      var c := NameRecord(at.mem.cat, w).value;
      var named := at.(mem := at.mem.(cat := c));
      NamedSane(at.mem.cat, w);
      RenamedSane(at, c);
      hide Sane;
      ReinsertSane(cfg, named, w.sample);
      AllSaneAppend(prev.out.trail, Reinsert(cfg, named, w.sample).trail);
    }
  }

  lemma {:induction false} ReplaySane(cfg: Config, d: Disk, c: Registry, ws: seq<Logged>)
    requires SaneDisk(d) && SaneRegistry(c) && forall w :: w in ws ==> SaneRecord(w)
    ensures var out := Replay(cfg, d, c, ws).out;
            Sane(out.end) && AllSane(out.trail)
  {
    hide ReplayOne, SaneRegistry, SaneRecord, AllSane;
    if ws == [] {
      StartSane(d, c);
    } else {
      var init, w := ws[..|ws| - 1], ws[|ws| - 1];
      assert ws == init + [w];
      hide Sane, SaneDisk;
      ReplaySane(cfg, d, c, init);
      TurnSane(cfg, Replay(cfg, d, c, init), w);
    }
  }

  lemma StartSane(d: Disk, c: Registry)
    requires SaneDisk(d) && SaneRegistry(c)
    ensures Sane(Point(d, Mem(c, map[], {}))) && AllSane([])
  {
    hide SaneDisk, SaneRegistry;
  }

  lemma LoadedSane(es: seq<SavedMetric>)
    requires Load(es).Ok? && forall e :: e in es ==> e.id < TWO_16
    ensures SaneRegistry(Load(es).value)
  {
    LoadsIff(es);
    hide Load, Linked;
    var c := Load(es).value;
    forall n | n in c.metrics ensures c.metrics[n].id < TWO_16 {
      assert PinOf(c, n) in PinsOf(c);
    }
  }

  lemma TruncatedSane(d: Disk)
    requires SaneDisk(d)
    ensures SaneDisk(d.(wal := []))
  {
    hide AllValid, SaneRecord;
  }

  /** Opening keeps the fields, at each of its writes. */
  lemma ReopenSane(cfg: Config, d: Disk)
    requires SaneDisk(d)
    ensures Sane(Reopen(cfg, d).end) && AllSane(Reopen(cfg, d).trail)
  {
    hide Load, Replay, Resolves, SaneRegistry, Sane;
    NoMetricsSane();
    StartSane(d, NO_METRICS);
    if Load(d.saved).Ok? {
      var c := Load(d.saved).value;
      LoadedSane(d.saved);
      StartSane(d, c);
      TruncatedSane(d);
      StartSane(d.(wal := []), c);
      ReplaySane(cfg, d, c, d.wal);
    }
  }

  lemma NoMetricsSane()
    ensures SaneRegistry(NO_METRICS)
  {
  }

  // ---------------------------------------------------------------- runs

  ghost predicate StateSane(s: State) {
    match s case Up(at, _) => Sane(at) case Down(d) => SaneDisk(d)
  }

  function FilesOf(s: State): Disk {
    match s case Up(at, _) => at.disk case Down(d) => d
  }

  lemma CutSane(d: Disk, trail: seq<Point>, k: nat)
    requires SaneDisk(d) && AllSane(trail) && k <= |trail|
    ensures SaneDisk(CutAt(d, trail, k))
  {
    hide SaneDisk;
  }

  lemma PerformSane(cfg: Config, at: Point, op: Op)
    requires Sane(at)
    ensures Sane(Perform(cfg, at, op).end) && AllSane(Perform(cfg, at, op).trail)
  {
    hide Sane, Fine, AllFine, Perform;
    FineStart(cfg, at);
    FinePerform(cfg, at, at, op);
    FineIsSane(cfg, at, Perform(cfg, at, op).end, None, Perform(cfg, at, op).trail);
  }

  lemma StepSane(cfg: Config, s: State, l: Label, s': State)
    requires StateSane(s) && Next(cfg, s, l, s')
    ensures StateSane(s')
  {
    hide SaneDisk, SaneRegistry, AllSane, Perform, Reopen, CutAt, Bare, AllValid;
    match l
    case Exec(op) => PerformSane(cfg, s.at, op);
    case Crash(op, k) =>
      PerformSane(cfg, s.at, op);
      CutSane(s.at.disk, Perform(cfg, s.at, op).trail, k);
    case Restart => ReopenSane(cfg, s.disk);
    case CrashInReplay(k) =>
      ReopenSane(cfg, s.disk);
      CutSane(s.disk, Reopen(cfg, s.disk).trail, k);
  }

  lemma {:induction false} RunSane(cfg: Config, ss: seq<State>, ls: seq<Label>, i: nat)
    requires Run(cfg, ss, ls) && i < |ss|
    ensures StateSane(ss[i])
  {
    hide Next;
    if i == 0 {
      assert StateSane(FRESH);
    } else {
      hide StateSane;
      RunSane(cfg, ss, ls, i - 1);
      StepSane(cfg, ss[i - 1], ls[i - 1], ss[i]);
    }
  }

  lemma StateFiles(cfg: Config, ss: seq<State>, ls: seq<Label>, i: nat)
    requires Run(cfg, ss, ls) && i < |ss|
    ensures FilesOk(cfg, FilesOf(ss[i]).files) && SaneDisk(FilesOf(ss[i]))
  {
    hide Run, FilesOk, SaneDisk;
    RunIsSafe(cfg, ss, ls, i);
    RunSane(cfg, ss, ls, i);
    match ss[i]
    case Up(at, bare) => InvFiles(cfg, at, bare);
    case Down(d) => SoundFiles(cfg, d);
  }

  /**
   At every state of every run: a partition file reads back if and only if none of its pages was written with 65536
   samples or more, and then as exactly the samples of those pages, in order.
   */
  lemma RunReadsIff(cfg: Config, codec: Codec, ss: seq<State>, ls: seq<Label>, i: nat, p: Part)
    requires Capable(codec) && Run(cfg, ss, ls) && i < |ss|
    ensures var frames := FramesIn(FilesOf(ss[i]), p);
            ReadBack(codec, FilesOf(ss[i]), p)
            == if forall k :: 0 <= k < |frames| ==> |frames[k]| <= MAX_PAGE_RECORDS then Some(Flatten(frames)) else None
  {
    hide Run, ReadBack, Capable, FilesOk, SaneDisk, Flatten;
    StateFiles(cfg, ss, ls, i);
    ReadsIff(cfg, codec, FilesOf(ss[i]), p);
  }

  /** The same of the bytes an open database has on its files, when its files are those of a state of a run. */
  lemma DatabaseReadsIff(db: MetricDatabase.Database, ss: seq<State>, ls: seq<Label>, i: nat, p: Part)
    requires db.Valid() && Capable(db.codec) && Run(db.cfg, ss, ls) && i < |ss| && db.Durable() == FilesOf(ss[i])
    requires p in db.files
    ensures var frames, read := FramesIn(FilesOf(ss[i]), p), ReadPages(db.codec, db.files[p]);
            && (read.Scanned? <==> forall k :: 0 <= k < |frames| ==> |frames[k]| <= MAX_PAGE_RECORDS)
            && (read.Scanned? ==> SamplesOf(read.items) == Flatten(frames))
  {
    hide Run, Capable, Flatten, ReadPages, FilesOk, SaneDisk, FileBytes;
    RunReadsIff(db.cfg, db.codec, ss, ls, i, p);
    assert db.files[p] == FileBytes(db.codec, db.frames[p]);
  }

  // ---------------------------------------------------------------- opening

  lemma NarrowAppend(a: seq<Page>, b: seq<Page>)
    ensures AllNarrow(a + b) <==> AllNarrow(a) && AllNarrow(b)
  {
    hide Narrow;
    if AllNarrow(a + b) {
      assert forall i :: 0 <= i < |a| ==> (a + b)[i] == a[i];
      assert forall i :: 0 <= i < |b| ==> (a + b)[|a| + i] == b[i];
    }
  }

  lemma OpenedRuns(cfg: Config, d: Disk, p: Part)
    requires Sound(cfg, d) && cfg.walEnabled
    ensures var out, runs := Reopen(cfg, d), RunsIn(cfg, d, p);
            && AllStaged(cfg, d, out.trail) && Staged(cfg, d, out.end.disk, p)
            && (out.err.None? ==>
                  && FramesIn(out.end.disk, p) == FramesIn(d, p) + Closed(runs)
                  && OpenIn(out.end.mem, p) == Tail(runs) && (p in out.end.mem.open ==> Tail(runs) != []))
  {
    hide Inv, Replay, Load, Resolves, RunsUpTo, Staged;
    var pt: Point, un: multiset<Sample> :| pt.disk == d && Inv(cfg, pt, un);
    NotYetStaged(cfg, d, p);
    if Load(d.saved).Ok? {
      var c := Load(d.saved).value;
      ReplayMakesRuns(cfg, pt, un, c, p);
      var end := Replay(cfg, d, c, d.wal).out.end;
      assert Staged(cfg, d, [end][0].disk, p);
    }
  }

  lemma NotYetStaged(cfg: Config, d: Disk, p: Part)
    ensures Staged(cfg, d, d, p) && AllStaged(cfg, d, [])
  {
    hide Mark;
    assert d.wal[..0] == [] && Closed(RunsUpTo(cfg, d, p, 0)) == [];
  }

  lemma OpenedFiles(cfg: Config, d: Disk)
    requires Sound(cfg, d) && SaneDisk(d)
    ensures FilesOk(cfg, Reopen(cfg, d).end.disk.files) && SaneDisk(Reopen(cfg, d).end.disk)
  {
    hide Reopen, FilesOk, SaneDisk, Sound;
    ReopenIsSafe(cfg, d);
    SoundFiles(cfg, Reopen(cfg, d).end.disk);
    ReopenSane(cfg, d);
  }

  lemma RunsFlat(cfg: Config, d: Disk, p: Part)
    ensures var runs := RunsIn(cfg, d, p);
            Flatten(Closed(runs)) + Tail(runs) == AboveIn(cfg, d.wal, p, Mark(FramesIn(d, p)))
  {
    assert d.wal[..|d.wal|] == d.wal;
    var ss := AboveIn(cfg, d.wal, p, Mark(FramesIn(d, p)));
    RisesAreMaximal(ss);
    hide Rises, Mark, AboveIn;
    var runs := RunsIn(cfg, d, p);
    assert runs == Rises(ss);
    if runs == [] {
      assert Flatten<Sample>([]) == [];
    } else {
      FlattenSnoc(Closed(runs), Tail(runs));
      assert runs == Closed(runs) + [Tail(runs)];
    }
  }

  /**
   Opening the files of any crash point: a partition file reads back afterwards if and only if it did before and every
   run of its log records above the watermark but the last has at most 65535 samples. Then what reads back and the open
   page are, in order, what read back before and the log records above the watermark.
   */
  lemma ReopenReads(cfg: Config, codec: Codec, d: Disk, p: Part)
    requires Capable(codec) && Sound(cfg, d) && SaneDisk(d) && cfg.walEnabled && Reopen(cfg, d).err.None?
    ensures var end := Reopen(cfg, d).end;
            var before, after := ReadBack(codec, d, p), ReadBack(codec, end.disk, p);
            && (after.Some? <==> before.Some? && AllNarrow(Closed(RunsIn(cfg, d, p))))
            && (after.Some? ==>
                  after.value + OpenIn(end.mem, p) == before.value + AboveIn(cfg, d.wal, p, Mark(FramesIn(d, p))))
  {
    hide Reopen, ReadBack, Capable, SaneDisk, FilesOk, RunsUpTo, Closed, Tail, AboveIn, Mark, Flatten, AllNarrow, AllStaged;
    SoundFiles(cfg, d);
    OpenedFiles(cfg, d);
    var end, runs := Reopen(cfg, d).end, RunsIn(cfg, d, p);
    hide Sound;
    ReadsIff(cfg, codec, d, p);
    ReadsIff(cfg, codec, end.disk, p);
    OpenedRuns(cfg, d, p);
    NarrowAppend(FramesIn(d, p), Closed(runs));
    FlattenAppend(FramesIn(d, p), Closed(runs));
    RunsFlat(cfg, d, p);
    var f, c, t := Flatten(FramesIn(d, p)), Flatten(Closed(runs)), Tail(runs);
    assert (f + c) + t == f + (c + t);
  }

  /** The exact count of each sample among what can be read or is on a page, once any crash point is opened. */
  lemma ReopenCountsRead(cfg: Config, codec: Codec, d: Disk, s: Sample)
    requires Capable(codec) && Sound(cfg, d) && SaneDisk(d) && cfg.walEnabled && Reopen(cfg, d).err.None?
    requires ReadBack(codec, Reopen(cfg, d).end.disk, cfg.part(s.ts)).Some?
    ensures var end, p := Reopen(cfg, d).end, cfg.part(s.ts);
            && ReadBack(codec, d, p).Some?
            && multiset(ReadBack(codec, end.disk, p).value + OpenIn(end.mem, p))[s]
               == multiset(ReadBack(codec, d, p).value)[s]
                  + if IsAbove(s.ts, FramesIn(d, p)) then multiset(LoggedIn(cfg, d.wal, p))[s] else 0
  {
    hide Reopen, ReadBack, Capable, SaneDisk, Sound, RunsUpTo, AboveIn, Mark, IsDurable;
    var p := cfg.part(s.ts);
    ReopenReads(cfg, codec, d, p);
    AboveCount(cfg, d.wal, p, Mark(FramesIn(d, p)), s);
  }

  // ---------------------------------------------------------------- a process

  lemma ReachOf(cfg: Config, page0: Page)
    requires cfg.Valid()
    ensures Capacity(cfg.limits) <= MAX_PAGE_RECORDS
    ensures |page0| < MAX_PAGE_RECORDS ==> Reach(cfg, page0) <= MAX_PAGE_RECORDS
  {
  }

  /** Which sizes let the file of p be read, from the page that was open at the start. */
  lemma SizedReads(cfg: Config, from: Point, at: Point, p: Part)
    requires cfg.Valid() && Sized(cfg, from, at, p, true)
    ensures var f0, page0 := FramesIn(from.disk, p), OpenIn(from.mem, p);
            var more := FramesIn(at.disk, p)[|f0|..];
            && f0 <= FramesIn(at.disk, p)
            && (AllNarrow(FramesIn(at.disk, p)) <==>
                  && AllNarrow(f0)
                  && (more == [] || |page0| < MAX_PAGE_RECORDS || (|page0| == MAX_PAGE_RECORDS && more[0] == page0)))
  {
    hide Capacity;
    var f0, f, page0 := FramesIn(from.disk, p), FramesIn(at.disk, p), OpenIn(from.mem, p);
    var more := f[|f0|..];
    ReachOf(cfg, page0);
    assert f == f0 + more;
    NarrowAppend(f0, more);
    if more != [] {
      assert AllNarrow(more) <==> Narrow(more[0]);
      if |page0| == MAX_PAGE_RECORDS && Narrow(more[0]) {
        assert more[0][..|page0|] == more[0];
      }
    }
  }

  /**
   Within one process: a partition file can be read at the end if and only if it could at the start and the page that was
   open at the start has at most 65534 samples, or is not written yet, or has 65535 and was written before another was put
   on it. Then what reads back and the open page are, in order, what read back and the open page at the start, and every
   accepted sample of the partition, once each. No more days are open than the setting allows, and an open sample accepted
   with logging is still in the log.
   */
  lemma ProcessReads(cfg: Config, codec: Codec, at: Point, un: multiset<Sample>, ops: seq<Op>, p: Part)
    requires Capable(codec) && cfg.Valid() && Inv(cfg, at, un) && Sane(at) && AllTimed(ops)
    ensures var end, page0 := After(cfg, at, ops), OpenIn(at.mem, p);
            var before, after := ReadBack(codec, at.disk, p), ReadBack(codec, end.disk, p);
            && FramesIn(at.disk, p) <= FramesIn(end.disk, p)
            && var more := FramesIn(end.disk, p)[|FramesIn(at.disk, p)|..];
               && (after.Some? <==>
                     && before.Some?
                     && (more == [] || |page0| < MAX_PAGE_RECORDS || (|page0| == MAX_PAGE_RECORDS && more[0] == page0)))
               && (after.Some? ==>
                     after.value + OpenIn(end.mem, p) == before.value + page0 + InPart(cfg, Accepted(cfg, at, ops), p))
               && DaysOk(cfg, end.mem)
               && multiset(OpenIn(end.mem, p)) <= multiset(LoggedIn(cfg, end.disk.wal, p)) + un + AcceptedBare(cfg, at, ops)
  {
    hide Inv, ReadBack, Capable, SaneDisk, FilesOk, Flatten, AllNarrow, After, Accepted, AcceptedBare, Sized, DaysOk, LoggedIn, InPart;
    var end := After(cfg, at, ops);
    InvFiles(cfg, at, un);
    ReadsIff(cfg, codec, at.disk, p);
    ProcessStores(cfg, at, un, ops);
    InvFiles(cfg, end, un + AcceptedBare(cfg, at, ops));
    FineProcess(cfg, at, ops);
    FineAt(cfg, at, end, p);
    ReadsIff(cfg, codec, end.disk, p);
    SizedReads(cfg, at, end, p);
    ProcessConserves(cfg, at, un, ops, p);
  }

  lemma FineAt(cfg: Config, from: Point, at: Point, p: Part)
    requires Fine(cfg, from, at, None)
    ensures Sized(cfg, from, at, p, true) && SaneDisk(at.disk)
  {
    hide Sized, SaneDisk, SaneRegistry, AllValid;
    var none: Option<Part> := None;
    assert Sized(cfg, from, at, p, none == Some(p));
    SizedOver(cfg, from, at, p);
  }

  /**
   From the files of a crash point, before they are opened: whatever the process that opens them does, a partition file
   can be read afterwards if and only if it can be read now, no run of its log records above the watermark but the last has
   65536 samples, and the last has at most 65534, or is not written yet, or has 65535 and was written before another sample
   was put on it.
   */
  lemma ReopenedProcessReads(cfg: Config, codec: Codec, d: Disk, ops: seq<Op>, p: Part)
    requires Capable(codec) && cfg.Valid() && Sound(cfg, d) && SaneDisk(d) && cfg.walEnabled && Reopen(cfg, d).err.None?
    requires AllTimed(ops)
    ensures var at := Reopen(cfg, d).end;
            var end, runs := After(cfg, at, ops), RunsIn(cfg, d, p);
            var written := FramesIn(d, p) + Closed(runs);
            && written <= FramesIn(end.disk, p)
            && var more := FramesIn(end.disk, p)[|written|..];
               ReadBack(codec, end.disk, p).Some? <==>
                 && ReadBack(codec, d, p).Some? && AllNarrow(Closed(runs))
                 && (more == [] || |Tail(runs)| < MAX_PAGE_RECORDS || (|Tail(runs)| == MAX_PAGE_RECORDS && more[0] == Tail(runs)))
  {
    hide Inv, Sound, Reopen, ReadBack, Capable, SaneDisk, SaneRegistry, RunsUpTo, Closed, Tail, AllNarrow, After, AllStaged;
    var at := Reopen(cfg, d).end;
    ReopenIsSafe(cfg, d);
    ReopenSane(cfg, d);
    ReopenReads(cfg, codec, d, p);
    OpenedRuns(cfg, d, p);
    hide Sane;
    ProcessReads(cfg, codec, at, multiset{}, ops, p);
  }

  // ---------------------------------------------------------------- runs that stay readable

  /** No run of the log records of any partition above its watermark has 65535 samples. */
  ghost predicate ShortRuns(cfg: Config, d: Disk) {
    forall p, k :: 0 <= k < |RunsIn(cfg, d, p)| ==> |RunsIn(cfg, d, p)[k]| < MAX_PAGE_RECORDS
  }

  /** Whenever the run opens a database, the log holds no long run. */
  ghost predicate OpensShort(cfg: Config, ss: seq<State>, ls: seq<Label>) {
    forall i :: 0 <= i < |ls| && i < |ss| && ss[i].Down? && (ls[i].Restart? || ls[i].CrashInReplay?) ==> ShortRuns(cfg, ss[i].disk)
  }

  ghost predicate ShortFiles(d: Disk) {
    forall p :: AllNarrow(FramesIn(d, p))
  }

  ghost predicate ShortState(s: State) {
    match s
    case Up(at, _) => ShortFiles(at.disk) && forall p :: |OpenIn(at.mem, p)| < MAX_PAGE_RECORDS
    case Down(d) => ShortFiles(d)
  }

  lemma SizedShort(cfg: Config, from: Point, at: Point, p: Part, over: bool)
    requires cfg.Valid() && Sized(cfg, from, at, p, over)
    requires |OpenIn(from.mem, p)| < MAX_PAGE_RECORDS && AllNarrow(FramesIn(from.disk, p))
    ensures AllNarrow(FramesIn(at.disk, p))
    ensures !over ==> |OpenIn(at.mem, p)| < MAX_PAGE_RECORDS
  {
    if !over {
      SizedOver(cfg, from, at, p);
    }
    SizedReads(cfg, from, at, p);
    ReachOf(cfg, OpenIn(from.mem, p));
    hide Capacity, AllNarrow;
  }

  lemma FineShort(cfg: Config, from: Point, at: Point, trail: seq<Point>)
    requires cfg.Valid() && Fine(cfg, from, at, None) && AllFine(cfg, from, trail)
    requires ShortFiles(from.disk) && forall p :: |OpenIn(from.mem, p)| < MAX_PAGE_RECORDS
    ensures ShortFiles(at.disk) && forall p :: |OpenIn(at.mem, p)| < MAX_PAGE_RECORDS
    ensures forall k :: 0 <= k < |trail| ==> ShortFiles(trail[k].disk)
  {
    hide Sized, Sane, SaneDisk, AllNarrow;
    var none: Option<Part> := None;
    forall p ensures AllNarrow(FramesIn(at.disk, p)) && |OpenIn(at.mem, p)| < MAX_PAGE_RECORDS {
      assert Sized(cfg, from, at, p, none == Some(p));
      SizedShort(cfg, from, at, p, false);
    }
    forall k, p | 0 <= k < |trail| ensures AllNarrow(FramesIn(trail[k].disk, p)) {
      assert Sized(cfg, from, trail[k], p, true);
      SizedShort(cfg, from, trail[k], p, true);
    }
  }

  lemma PerformShort(cfg: Config, at: Point, op: Op)
    requires cfg.Valid() && Sane(at) && ShortFiles(at.disk) && forall p :: |OpenIn(at.mem, p)| < MAX_PAGE_RECORDS
    ensures var out := Perform(cfg, at, op);
            && ShortFiles(out.end.disk) && (forall p :: |OpenIn(out.end.mem, p)| < MAX_PAGE_RECORDS)
            && forall k :: 0 <= k < |out.trail| ==> ShortFiles(out.trail[k].disk)
  {
    hide Sane, Fine, AllFine, Perform, ShortFiles;
    FineStart(cfg, at);
    FinePerform(cfg, at, at, op);
    FineShort(cfg, at, Perform(cfg, at, op).end, Perform(cfg, at, op).trail);
  }

  lemma RunsNarrow(cfg: Config, d: Disk, p: Part)
    requires ShortRuns(cfg, d)
    ensures AllNarrow(Closed(RunsIn(cfg, d, p))) && |Tail(RunsIn(cfg, d, p))| < MAX_PAGE_RECORDS
  {
    hide RunsUpTo;
    var runs := RunsIn(cfg, d, p);
    assert forall k :: 0 <= k < |runs| ==> |runs[k]| < MAX_PAGE_RECORDS;
  }

  lemma StagedShort(cfg: Config, d: Disk, disk: Disk, p: Part)
    requires Staged(cfg, d, disk, p) && ShortRuns(cfg, d) && AllNarrow(FramesIn(d, p))
    ensures AllNarrow(FramesIn(disk, p))
  {
    hide RunsUpTo, Closed, ShortRuns;
    var k :| 0 <= k <= |d.wal| && FramesIn(disk, p) == FramesIn(d, p) + Closed(RunsUpTo(cfg, d, p, k));
    ClosedEarly(cfg, d, p, k);
    RunsNarrow(cfg, d, p);
    var a, b := Closed(RunsUpTo(cfg, d, p, k)), Closed(RunsIn(cfg, d, p));
    assert b == a + b[|a|..];
    NarrowAppend(a, b[|a|..]);
    NarrowAppend(FramesIn(d, p), a);
  }

  lemma ReopenShort(cfg: Config, d: Disk)
    requires Sound(cfg, d) && ShortRuns(cfg, d) && ShortFiles(d)
    ensures var out := Reopen(cfg, d);
            && ShortFiles(out.end.disk) && (out.err.None? ==> forall p :: |OpenIn(out.end.mem, p)| < MAX_PAGE_RECORDS)
            && forall k :: 0 <= k < |out.trail| ==> ShortFiles(out.trail[k].disk)
  {
    hide Sound, ShortRuns, RunsUpTo, Staged, AllNarrow;
    var out := Reopen(cfg, d);
    if cfg.walEnabled {
      hide Reopen;
      forall p ensures AllNarrow(FramesIn(out.end.disk, p)) && (out.err.None? ==> |OpenIn(out.end.mem, p)| < MAX_PAGE_RECORDS) {
        OpenedRuns(cfg, d, p);
        RunsNarrow(cfg, d, p);
        StagedShort(cfg, d, out.end.disk, p);
      }
      forall k, p | 0 <= k < |out.trail| ensures AllNarrow(FramesIn(out.trail[k].disk, p)) {
        OpenedRuns(cfg, d, p);
        StagedShort(cfg, d, out.trail[k].disk, p);
      }
    } else {
      hide Load;
      assert forall p :: FramesIn(out.end.disk, p) == FramesIn(d, p) && OpenIn(out.end.mem, p) == [];
      assert forall k, p :: 0 <= k < |out.trail| ==> FramesIn(out.trail[k].disk, p) == FramesIn(d, p);
    }
  }

  lemma CutShort(d: Disk, trail: seq<Point>, k: nat)
    requires ShortFiles(d) && k <= |trail| && forall i :: 0 <= i < |trail| ==> ShortFiles(trail[i].disk)
    ensures ShortFiles(CutAt(d, trail, k))
  {
    hide ShortFiles;
  }

  lemma StepShort(cfg: Config, s: State, l: Label, s': State)
    requires cfg.Valid() && Next(cfg, s, l, s') && StateSane(s) && ShortState(s)
    requires s.Down? ==> Sound(cfg, s.disk) && ShortRuns(cfg, s.disk)
    ensures ShortState(s')
  {
    hide Sound, ShortRuns, ShortFiles, Sane, SaneDisk, Perform, Reopen, CutAt, Bare;
    match l
    case Exec(op) => PerformShort(cfg, s.at, op);
    case Crash(op, k) =>
      PerformShort(cfg, s.at, op);
      CutShort(s.at.disk, Perform(cfg, s.at, op).trail, k);
    case Restart => ReopenShort(cfg, s.disk);
    case CrashInReplay(k) =>
      ReopenShort(cfg, s.disk);
      CutShort(s.disk, Reopen(cfg, s.disk).trail, k);
  }

  lemma DownOpens(cfg: Config, ss: seq<State>, ls: seq<Label>, i: nat)
    requires Run(cfg, ss, ls) && OpensShort(cfg, ss, ls) && i < |ls| && ss[i].Down?
    ensures Sound(cfg, ss[i].disk) && ShortRuns(cfg, ss[i].disk)
  {
    hide Sound, ShortRuns, Perform, Reopen;
    RestartIsSound(cfg, ss, ls, i);
    assert Next(cfg, ss[i], ls[i], ss[i + 1]);
  }

  lemma {:induction false} RunShort(cfg: Config, ss: seq<State>, ls: seq<Label>, i: nat)
    requires cfg.Valid() && Run(cfg, ss, ls) && OpensShort(cfg, ss, ls) && i < |ss|
    ensures ShortState(ss[i])
  {
    if i == 0 {
      assert forall p :: FramesIn(FRESH.disk, p) == [];
      assert ShortState(FRESH);
    } else {
      hide Next, ShortState, OpensShort, Sound, ShortRuns, StateSane;
      RunShort(cfg, ss, ls, i - 1);
      RunSane(cfg, ss, ls, i - 1);
      if ss[i - 1].Down? {
        DownOpens(cfg, ss, ls, i - 1);
      }
      StepShort(cfg, ss[i - 1], ls[i - 1], ss[i]);
    }
  }

  /**
   In a run in which, whenever the database is opened, the log holds no run of 65535 records of one partition above its
   watermark, every partition file reads back at every state, crash points included, as exactly the samples written.
   */
  lemma RunStaysReadable(cfg: Config, codec: Codec, ss: seq<State>, ls: seq<Label>, i: nat, p: Part)
    requires Capable(codec) && cfg.Valid() && Run(cfg, ss, ls) && OpensShort(cfg, ss, ls) && i < |ss|
    ensures ReadBack(codec, FilesOf(ss[i]), p) == Some(Flatten(FramesIn(FilesOf(ss[i]), p)))
  {
    hide Run, ReadBack, Capable, OpensShort, Flatten;
    RunShort(cfg, ss, ls, i);
    RunReadsIff(cfg, codec, ss, ls, i, p);
    assert AllNarrow(FramesIn(FilesOf(ss[i]), p));
  }
}
