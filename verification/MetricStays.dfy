/**
 When a partition file can be read whatever the process does from an opening on. All hangs on the page that the opening
 leaves: one of 65535 samples is lost by one more sample, so it matters whether the registry still takes one.
 */
module MetricStays {
  import opened Prelude
  import opened Bytes
  import opened Names
  import opened Codec
  import opened Samples
  import opened DataPages
  import opened Recompact
  import opened MetricRegistry
  import opened MetricEngine
  import opened MetricInvariant
  import opened MetricIngest
  import opened MetricReplay
  import opened MetricReplayPages
  import opened MetricRuns
  import opened MetricRecovery
  import opened MetricWidths
  import opened MetricReadable
  import opened MetricGaps

  /** Not before the last time of the metric. */
  predicate InTime(m: Metric, ts: Timestamp) {
    m.last.Some? ==> ts >= m.last.value
  }

  /**
   The registry takes a sample of partition p at t or later: it takes a new metric, or it has one, of a name that ingest
   lets through, whose last time is not past all those times.
   */
  ghost predicate TakesMore(cfg: Config, c: Registry, p: Part, t: Timestamp) {
    || |c.metrics| < MAX_METRICS
    || exists n, ts: Timestamp ::
         n in c.metrics && IsMetricName(n) && cfg.part(ts) == p && ts >= t && InTime(c.metrics[n], ts)
  }

  /** Every id is of a metric there is. */
  ghost predicate Rooted(c: Registry) {
    forall i :: i in c.names ==> c.names[i] in c.metrics
  }

  // ---------------------------------------------------------------- a registry that takes no more

  lemma FullGivesKnown(c: Registry, name: Name, vt: byte)
    requires |c.metrics| >= MAX_METRICS
    ensures GetId(c, name, vt).0 == c && (GetId(c, name, vt).1.Ok? ==> name in c.metrics)
  {
  }

  lemma NoteKeepsFull(cfg: Config, c: Registry, p: Part, t: Timestamp, id: nat, ts: Timestamp)
    requires Rooted(c) && !TakesMore(cfg, c, p, t)
    ensures Rooted(NoteLast(c, id, ts)) && !TakesMore(cfg, NoteLast(c, id, ts), p, t)
  {
    hide IsMetricName;
    var d := NoteLast(c, id, ts);
    assert d.metrics.Keys == c.metrics.Keys && |d.metrics| == |d.metrics.Keys| && |c.metrics| == |c.metrics.Keys|;
    forall n, u: Timestamp | n in d.metrics && IsMetricName(n) && cfg.part(u) == p && u >= t
      ensures !InTime(d.metrics[n], u)
    {
      assert !InTime(c.metrics[n], u);
    }
  }

  lemma SameTakes(cfg: Config, c: Registry, d: Registry, p: Part, t: Timestamp)
    requires SameNames(c, d)
    ensures TakesMore(cfg, c, p, t) == TakesMore(cfg, d, p, t) && Rooted(c) == Rooted(d)
  {
  }

  lemma StillTakesNone(cfg: Config, at: Point, op: Op, p: Part, t: Timestamp)
    requires Rooted(at.mem.cat) && !TakesMore(cfg, at.mem.cat, p, t)
    ensures var c := Perform(cfg, at, op).end.mem.cat;
            Rooted(c) && !TakesMore(cfg, c, p, t)
  {
    hide AddSample, FlushAll, NoteLast, GetId, Rooted, SameNames, InTime, IsMetricName;
    var c, d := at.mem.cat, Perform(cfg, at, op).end.mem.cat;
    match op
    case Ingest(q) =>
      AddSampleCat(cfg, at, q);
      FullGivesKnown(c, q.name, q.valueType);
      var given := GetId(c, q.name, q.valueType).1;
      hide TakesMore;
      if SameNames(c, d) {
        SameTakes(cfg, c, d, p, t);
      } else {
        NoteKeepsFull(cfg, c, p, t, given.value, q.ts);
        SameTakes(cfg, NoteLast(c, given.value, q.ts), d, p, t);
      }
    case FlushOpen(order) =>
      hide TakesMore;
      FlushAllCat(cfg, at, order);
      SameTakes(cfg, c, d, p, t);
  }

  /** A sample such a registry takes is before t. */
  lemma TakesBefore(cfg: Config, at: Point, op: Op, p: Part, t: Timestamp)
    requires !TakesMore(cfg, at.mem.cat, p, t)
    requires var put := Perform(cfg, at, op).put;
             put.Some? && cfg.part(put.value.ts) == p
    ensures Perform(cfg, at, op).put.value.ts < t
  {
    hide AddSample, FlushAll, GetId, NoteLast, SameNames;
    match op
    case Ingest(q) =>
      AddSampleCat(cfg, at, q);
      AcceptedIff(cfg, at, q);
      assert q.name in at.mem.cat.metrics && IsMetricName(q.name);
      assert InTime(at.mem.cat.metrics[q.name], q.ts);
    case FlushOpen(order) => FlushAllCat(cfg, at, order);
  }

  // ---------------------------------------------------------------- the page it leaves alone

  lemma FlattenStarts(pages: seq<Page>)
    requires pages != []
    ensures pages[0] <= Flatten(pages)
  {
  }

  /** The frames written by an operation begin with what was open, then what it put. */
  lemma WritesInOrder(cfg: Config, from: Point, put: Option<Sample>, at: Point, p: Part)
    requires MetricInvariant.Stored(at, p) == MetricInvariant.Stored(from, p) + Added(cfg, put, p)
    requires FramesIn(from.disk, p) <= FramesIn(at.disk, p) && FramesIn(at.disk, p) != FramesIn(from.disk, p)
    ensures FramesIn(at.disk, p)[|FramesIn(from.disk, p)|] <= OpenIn(from.mem, p) + Added(cfg, put, p)
  {
    hide Flatten, Added;
    var f0, f := FramesIn(from.disk, p), FramesIn(at.disk, p);
    var more := f[|f0|..];
    assert f == f0 + more;
    FlattenAppend(f0, more);
    FlattenStarts(more);
    var a, b := Flatten(more) + OpenIn(at.mem, p), OpenIn(from.mem, p) + Added(cfg, put, p);
    assert Flatten(f0) + a == (Flatten(f0) + Flatten(more)) + OpenIn(at.mem, p) == (Flatten(f0) + OpenIn(from.mem, p)) + Added(cfg, put, p)
           == Flatten(f0) + b;
    assert (Flatten(f0) + a)[|Flatten(f0)|..] == a && (Flatten(f0) + b)[|Flatten(f0)|..] == b;
  }

  /** The page is as it was, or it has been written as it was. */
  ghost predicate Kept(at: Point, p: Part, frames: seq<Page>, page: Page) {
    || (FramesIn(at.disk, p) == frames && OpenIn(at.mem, p) == page)
    || frames + [page] <= FramesIn(at.disk, p)
  }

  /** The first frame that an operation writes over a long page is that page. */
  lemma LongPageIsKept(cfg: Config, at: Point, un: multiset<Sample>, op: Op, p: Part)
    requires cfg.Valid() && Inv(cfg, at, un) && Sane(at) && Timed(op)
    requires |OpenIn(at.mem, p)| == MAX_PAGE_RECORDS && !TakesMore(cfg, at.mem.cat, p, EndOf(OpenIn(at.mem, p)))
    ensures Kept(Perform(cfg, at, op).end, p, FramesIn(at.disk, p), OpenIn(at.mem, p))
  {
    hide Perform, Sane, TakesMore, Fine, AllFine, TrailCarries, Backed, Covered, DaysOk, OpenOk, Flatten;
    var out, f0, page0 := Perform(cfg, at, op), FramesIn(at.disk, p), OpenIn(at.mem, p);
    FineStart(cfg, at);
    FinePerform(cfg, at, at, op);
    FineAt(cfg, at, out.end, p);
    PerformSound(cfg, at, un, op);
    SettledAt(cfg, at, out.end, p);
    var f := FramesIn(out.end.disk, p);
    if f != f0 && f[|f0|] != page0 {
      WritesInOrder(cfg, at, out.put, out.end, p);
      assert PageOk(cfg, p, out.end.disk.files[p][|f0|]);
      LongerPage(cfg, page0, out.put, p, f[|f0|]);
      TakesBefore(cfg, at, op, p, EndOf(page0));
      assert false;
    }
  }

  lemma SettledAt(cfg: Config, from: Point, at: Point, p: Part)
    requires cfg.Valid() && Fine(cfg, from, at, None) && |OpenIn(from.mem, p)| == MAX_PAGE_RECORDS
    ensures var f0, f, page0 := FramesIn(from.disk, p), FramesIn(at.disk, p), OpenIn(from.mem, p);
            && f0 <= f
            && (f == f0 ==> OpenIn(at.mem, p) == page0)
            && (f != f0 ==> page0 <= f[|f0|])
  {
    hide Sane, Capacity;
    var none: Option<Part> := None;
    assert Sized(cfg, from, at, p, none == Some(p));
    ReachOf(cfg, OpenIn(from.mem, p));
    var f0, f := FramesIn(from.disk, p), FramesIn(at.disk, p);
    assert f == f0 + f[|f0|..];
  }

  /** A page longer than another by what was put is in order only if that is not before its end. */
  lemma LongerPage(cfg: Config, page0: Page, put: Option<Sample>, p: Part, page: Page)
    requires page0 != [] && page0 <= page <= page0 + Added(cfg, put, p) && page != page0 && InOrder(page)
    ensures put.Some? && cfg.part(put.value.ts) == p && put.value.ts >= EndOf(page0)
  {
    assert |page| == |page0| + 1;
    assert page[|page0|] == put.value && page[|page0| - 1] == page0[|page0| - 1];
  }

  lemma {:induction false} ProcessKeeps(cfg: Config, at: Point, un: multiset<Sample>, ops: seq<Op>, p: Part)
    requires cfg.Valid() && Inv(cfg, at, un) && Sane(at) && AllTimed(ops) && Rooted(at.mem.cat)
    requires |OpenIn(at.mem, p)| == MAX_PAGE_RECORDS && !TakesMore(cfg, at.mem.cat, p, EndOf(OpenIn(at.mem, p)))
    ensures var end, page := After(cfg, at, ops), OpenIn(at.mem, p);
            && Kept(end, p, FramesIn(at.disk, p), page)
            && Rooted(end.mem.cat) && !TakesMore(cfg, end.mem.cat, p, EndOf(page))
  {
    hide Inv, Perform, Sane, Rooted, TakesMore, Fine, AllFine, Accepted, AcceptedBare;
    if ops != [] {
      var init, op := ops[..|ops| - 1], ops[|ops| - 1];
      ProcessKeeps(cfg, at, un, init, p);
      ProcessStores(cfg, at, un, init);
      FineProcess(cfg, at, init);
      var mid := After(cfg, at, init);
      FineSaneAt(cfg, at, mid);
      StillTakesNone(cfg, mid, op, p, EndOf(OpenIn(at.mem, p)));
      FineStart(cfg, mid);
      FinePerform(cfg, mid, mid, op);
      FineGrows(cfg, mid, Perform(cfg, mid, op).end, p);
      if OpenIn(mid.mem, p) == OpenIn(at.mem, p) && FramesIn(mid.disk, p) == FramesIn(at.disk, p) {
        LongPageIsKept(cfg, mid, un + AcceptedBare(cfg, at, init), op, p);
      }
    }
  }

  lemma FineSaneAt(cfg: Config, from: Point, at: Point)
    requires Fine(cfg, from, at, None)
    ensures Sane(at)
  {
    hide Sane, Sized;
  }

  lemma FineGrows(cfg: Config, from: Point, at: Point, p: Part)
    requires Fine(cfg, from, at, None)
    ensures FramesIn(from.disk, p) <= FramesIn(at.disk, p)
  {
    hide Sane;
    var none: Option<Part> := None;
    assert Sized(cfg, from, at, p, none == Some(p));
  }

  // ---------------------------------------------------------------- a registry that takes one more

  /** A sample that the page takes makes it full, and so it is written with it. */
  lemma PutIsWritten(cfg: Config, at: Point, w: Option<Logged>, s: Sample, q: Request)
    requires cfg.Valid() && s.ts == q.ts && q.order == []
    requires var page := OpenIn(at.mem, cfg.part(s.ts));
             |page| == MAX_PAGE_RECORDS && s.ts >= EndOf(page)
    ensures var p := cfg.part(s.ts);
            FramesIn(LogAndPut(cfg, at, w, s, q).end.disk, p) == FramesIn(at.disk, p) + [OpenIn(at.mem, p) + [s]]
  {
    hide NoteLast, WriteDay, MaybeReset;
    var p := cfg.part(s.ts);
    var put := Put(AppendLog(at, w), p, s);
    assert OpenIn(put.mem, p) == OpenIn(at.mem, p) + [s];
    assert FlushFull(cfg, put, p, q.order, q.aged) == Done(put, []);
    ReachOf(cfg, OpenIn(put.mem, p));
    ClosesAtCapacity(cfg.limits, |OpenIn(put.mem, p)|);
    WriteFiles(cfg, put, p);
    ResetStores(cfg, WriteDay(cfg, put, p));
  }

  lemma CallIsWritten(cfg: Config, at: Point, q: Request)
    requires cfg.Valid() && q.order == [] && !IsStale(at.mem.cat, q) && GetId(at.mem.cat, q.name, q.valueType).1.Ok?
    requires var p := cfg.part(q.ts);
             && p in at.mem.open && p !in at.mem.sealed
             && |OpenIn(at.mem, p)| == MAX_PAGE_RECORDS && q.ts >= EndOf(OpenIn(at.mem, p))
    ensures var p, s := cfg.part(q.ts), Sample(GetId(at.mem.cat, q.name, q.valueType).1.value, q.ts, q.raw);
            FramesIn(AddSample(cfg, at, q).end.disk, p) == FramesIn(at.disk, p) + [OpenIn(at.mem, p) + [s]]
  {
    hide GetId, LogAndPut, EntryFor, SealDay;
    var (c, given) := GetId(at.mem.cat, q.name, q.valueType);
    var named := at.(mem := at.mem.(cat := c));
    PutIsWritten(cfg, named, EntryFor(cfg, q.name in at.mem.cat.metrics, q, given.value), Sample(given.value, q.ts, q.raw), q);
  }

  /** A call that the registry takes, at t or later. */
  lemma SomeCall(cfg: Config, c: Registry, p: Part, t: Timestamp) returns (q: Request)
    requires TakesMore(cfg, c, p, t) && cfg.part(t) == p
    requires forall n :: n in c.metrics ==> IsSampleType(c.metrics[n].valueType)
    ensures cfg.part(q.ts) == p && q.ts >= t && q.order == [] && !IsStale(c, q) && GetId(c, q.name, q.valueType).1.Ok?
  {
    hide IsMetricName;
    if |c.metrics| < MAX_METRICS {
      assert |c.metrics.Keys| == |c.metrics|;
      var n := NewName(c.metrics.Keys);
      IsNew(c, n, t);
      q := CallFor(n, INT32_SAMPLE, t);
    } else {
      var n, ts: Timestamp :|
        n in c.metrics && IsMetricName(n) && cfg.part(ts) == p && ts >= t && InTime(c.metrics[n], ts);
      q := CallFor(n, c.metrics[n].valueType, ts);
    }
  }

  /** One call that puts the 65536th sample on the page and has it written. */
  lemma OneMore(cfg: Config, at: Point, un: multiset<Sample>, p: Part) returns (q: Request)
    requires cfg.Valid() && Inv(cfg, at, un) && |OpenIn(at.mem, p)| == MAX_PAGE_RECORDS
    requires TakesMore(cfg, at.mem.cat, p, EndOf(OpenIn(at.mem, p)))
    requires forall n :: n in at.mem.cat.metrics ==> IsSampleType(at.mem.cat.metrics[n].valueType)
    ensures AllTimed([Ingest(q)])
    ensures var f := FramesIn(After(cfg, at, [Ingest(q)]).disk, p);
            |f| == |FramesIn(at.disk, p)| + 1 && FramesIn(at.disk, p) <= f && f[|f| - 1] != OpenIn(at.mem, p)
  {
    hide AddSample, GetId, TakesMore, FilesOk, Covered, Backed;
    var page := OpenIn(at.mem, p);
    assert PageOk(cfg, p, page);
    assert page[|page| - 1] in page;
    q := SomeCall(cfg, at.mem.cat, p, EndOf(page));
    CallIsWritten(cfg, at, q);
    assert [Ingest(q)][..0] == [];
    assert After(cfg, at, []) == at;
    assert After(cfg, at, [Ingest(q)]) == AddSample(cfg, at, q).end;
  }

  // ---------------------------------------------------------------- from the files

  lemma RunsSplit(runs: seq<Page>)
    ensures AllNarrow(runs) <==> AllNarrow(Closed(runs)) && (runs == [] || Narrow(Tail(runs)))
    ensures Tail(runs) != [] ==> runs != []
  {
    hide Narrow;
    if runs != [] {
      NarrowAppend(Closed(runs), [Tail(runs)]);
      assert runs == Closed(runs) + [Tail(runs)];
      assert AllNarrow([Tail(runs)]) <==> Narrow([Tail(runs)][0]);
    }
  }

  /** A flush writes the open page. */
  lemma OneFlush(cfg: Config, at: Point, p: Part)
    ensures AllTimed([FlushOpen([p])])
    ensures OpenIn(at.mem, p) != [] ==>
              FramesIn(After(cfg, at, [FlushOpen([p])]).disk, p) == FramesIn(at.disk, p) + [OpenIn(at.mem, p)]
  {
    hide WriteDay, MaybeReset, Save;
    var op := FlushOpen([p]);
    assert [op][..0] == [] && [p][..0] == [];
    assert After(cfg, at, []) == at;
    assert After(cfg, at, [op]) == FlushAll(cfg, at, [p]).end;
    WriteFiles(cfg, at, p);
    var flushed := FlushDays(cfg, at, [p]).end;
    assert FlushDays(cfg, at, []) == Done(at, []);
    ResetStores(cfg, flushed);
    SavesFiles(MaybeReset(cfg, flushed));
  }

  lemma SavesFiles(at: Point)
    ensures SaveIfDirty(at).disk.files == at.disk.files
  {
    hide Listing;
  }

  lemma OpenedReady(cfg: Config, d: Disk, p: Part)
    requires cfg.Valid() && Sound(cfg, d) && SaneDisk(d) && cfg.walEnabled && Reopen(cfg, d).err.None?
    ensures var at := Reopen(cfg, d).end;
            && Inv(cfg, at, multiset{}) && Sane(at) && Rooted(at.mem.cat)
            && (forall n :: n in at.mem.cat.metrics ==> IsSampleType(at.mem.cat.metrics[n].valueType))
            && FramesIn(at.disk, p) == FramesIn(d, p) + Closed(RunsIn(cfg, d, p))
            && OpenIn(at.mem, p) == Tail(RunsIn(cfg, d, p))
  {
    hide Inv, Sound, Reopen, SaneDisk, Sane, RunsUpTo, Closed, Tail, AllStaged, PinsOf, TakenPins, Numbered, GapFree;
    ReopenIsSafe(cfg, d);
    ReopenSane(cfg, d);
    OpenedRuns(cfg, d, p);
    OpensTaken(cfg, d);
    InRange(Reopen(cfg, d).end.mem.cat);
  }

  /** A last run of 65535 samples stays as long as the registry takes no further sample of its partition. */
  lemma LongRunStaysIff(cfg: Config, codec: Codec, d: Disk, p: Part)
    requires Capable(codec) && cfg.Valid() && Sound(cfg, d) && SaneDisk(d) && cfg.walEnabled && Reopen(cfg, d).err.None?
    requires ReadBack(codec, d, p).Some? && AllNarrow(Closed(RunsIn(cfg, d, p)))
    requires |Tail(RunsIn(cfg, d, p))| == MAX_PAGE_RECORDS
    ensures (forall ops :: AllTimed(ops) ==> ReadBack(codec, After(cfg, Reopen(cfg, d).end, ops).disk, p).Some?)
            <==> !TakesMore(cfg, Reopen(cfg, d).end.mem.cat, p, EndOf(Tail(RunsIn(cfg, d, p))))
  {
    hide Inv, Sound, Reopen, ReadBack, Capable, SaneDisk, Sane, RunsUpTo, After, AllNarrow, AllTimed, Closed, Tail, TakesMore, Rooted;
    var at, tail := Reopen(cfg, d).end, Tail(RunsIn(cfg, d, p));
    OpenedReady(cfg, d, p);
    if TakesMore(cfg, at.mem.cat, p, EndOf(tail)) {
      var q := OneMore(cfg, at, multiset{}, p);
      ReopenedProcessReads(cfg, codec, d, [Ingest(q)], p);
      assert !ReadBack(codec, After(cfg, at, [Ingest(q)]).disk, p).Some?;
    } else {
      forall ops | AllTimed(ops) ensures ReadBack(codec, After(cfg, at, ops).disk, p).Some? {
        ProcessKeeps(cfg, at, multiset{}, ops, p);
        ReopenedProcessReads(cfg, codec, d, ops, p);
      }
    }
  }

  /**
   The same for every continuation at once: a partition file stays readable whatever the process does if and only if it
   can be read now, no run of its log records above the watermark has 65536 samples, and, when the last has 65535, the
   registry takes no further sample of the partition at the end of that run or later.
   */
  lemma StaysReadableIff(cfg: Config, codec: Codec, d: Disk, p: Part)
    requires Capable(codec) && cfg.Valid() && Sound(cfg, d) && SaneDisk(d) && cfg.walEnabled && Reopen(cfg, d).err.None?
    ensures (forall ops :: AllTimed(ops) ==> ReadBack(codec, After(cfg, Reopen(cfg, d).end, ops).disk, p).Some?)
            <==>
            var runs := RunsIn(cfg, d, p);
            && ReadBack(codec, d, p).Some? && AllNarrow(runs)
            && (|Tail(runs)| == MAX_PAGE_RECORDS ==> !TakesMore(cfg, Reopen(cfg, d).end.mem.cat, p, EndOf(Tail(runs))))
  {
    hide Sound, Reopen, ReadBack, Capable, SaneDisk, RunsUpTo, After, AllNarrow, AllTimed, Closed, Tail, TakesMore;
    var at, runs := Reopen(cfg, d).end, RunsIn(cfg, d, p);
    var all := ReadBack(codec, d, p).Some? && AllNarrow(runs);
    RunsSplit(runs);
    if all && |Tail(runs)| == MAX_PAGE_RECORDS {
      LongRunStaysIff(cfg, codec, d, p);
    } else if all {
      forall ops | AllTimed(ops) ensures ReadBack(codec, After(cfg, at, ops).disk, p).Some? {
        ReopenedProcessReads(cfg, codec, d, ops, p);
      }
    } else {
      var flush := [FlushOpen([p])];
      OneFlush(cfg, at, p);
      OpenedRuns(cfg, d, p);
      ReopenedProcessReads(cfg, codec, d, flush, p);
      assert !ReadBack(codec, After(cfg, at, flush).disk, p).Some?;
    }
  }
}
