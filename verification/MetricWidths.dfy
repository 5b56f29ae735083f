/**
 How long the pages of a process get: every page it starts is closed by the limits of the setting, so only the pages it
 found open when it started can be longer.
 */
module MetricWidths {
  import opened Prelude
  import opened Bytes
  import opened Names
  import opened Samples
  import opened DataPages
  import opened Recompact
  import opened MetricRegistry
  import opened MetricEngine
  import opened MetricInvariant
  import opened MetricIngest
  import opened MetricReplay
  import opened MetricRuns

  // ---------------------------------------------------------------- fields that fit

  ghost predicate SaneRegistry(c: Registry) {
    forall n :: n in c.metrics ==> c.metrics[n].id < TWO_16
  }

  /** A log record whose fields fit, and that names no metric 0. */
  predicate SaneRecord(w: Logged) {
    ValidSample(w.sample) && (w.Naming? ==> w.sample.id >= 1)
  }

  /** Every id fits 16 bits, and every raw value 32. */
  ghost predicate SaneDisk(d: Disk) {
    && (forall p, i :: p in d.files && 0 <= i < |d.files[p]| ==> AllValid(d.files[p][i]))
    && (forall w :: w in d.wal ==> SaneRecord(w))
    && (forall e :: e in d.saved ==> e.id < TWO_16)
  }

  ghost predicate Sane(at: Point) {
    SaneDisk(at.disk) && SaneRegistry(at.mem.cat) && forall p :: AllValid(OpenIn(at.mem, p))
  }

  // ---------------------------------------------------------------- sizes

  /** The first page written after a page found open may be one longer than it, or reach the capacity. */
  function Reach(cfg: Config, page0: Page): nat {
    Max(|page0| + 1, Capacity(cfg.limits))
  }

  /**
   Since `from`, the file of p has only grown. The first new frame continues the page that was open at `from` by at most
   one sample beyond the capacity; the others, and the open page now, keep to it. `over` allows for a page just put on.
   */
  ghost predicate Sized(cfg: Config, from: Point, at: Point, p: Part, over: bool) {
    var f0, f, page0, page := FramesIn(from.disk, p), FramesIn(at.disk, p), OpenIn(from.mem, p), OpenIn(at.mem, p);
    var cap := Capacity(cfg.limits);
    && f0 <= f
    && var more := f[|f0|..];
       if more == [] then page0 <= page && (page == page0 || |page| < cap || (over && |page| <= Reach(cfg, page0)))
       else
         && page0 <= more[0] && |more[0]| <= Reach(cfg, page0)
         && (forall j :: 1 <= j < |more| ==> |more[j]| <= cap)
         && (|page| < cap || (over && |page| <= cap))
  }

  lemma SizedStart(cfg: Config, at: Point, p: Part)
    ensures Sized(cfg, at, at, p, false)
  {
  }

  lemma SizedOver(cfg: Config, from: Point, at: Point, p: Part)
    requires Sized(cfg, from, at, p, false)
    ensures Sized(cfg, from, at, p, true)
  {
  }

  lemma SizedElsewhere(cfg: Config, from: Point, at: Point, next: Point, p: Part, over: bool)
    requires Sized(cfg, from, at, p, over)
    requires FramesIn(next.disk, p) == FramesIn(at.disk, p) && OpenIn(next.mem, p) == OpenIn(at.mem, p)
    ensures Sized(cfg, from, next, p, over)
  {
    hide Capacity;
  }

  lemma SizedFlush(cfg: Config, from: Point, at: Point, p: Part, over: bool)
    requires Sized(cfg, from, at, p, over)
    ensures Sized(cfg, from, FlushDay(at, p), p, false)
  {
    hide Capacity;
    var next := FlushDay(at, p);
    var f0, f, page := FramesIn(from.disk, p), FramesIn(at.disk, p), OpenIn(at.mem, p);
    CapacityIsPositive(cfg);
    if page != [] {
      assert FramesIn(next.disk, p) == f + [page];
      assert (f + [page])[|f0|..] == f[|f0|..] + [page];
      assert f0 <= f + [page];
    } else {
      assert FramesIn(next.disk, p) == f && OpenIn(next.mem, p) == [];
    }
  }

  lemma CapacityIsPositive(cfg: Config)
    ensures Capacity(cfg.limits) >= 1
  {
  }

  lemma SizedPut(cfg: Config, from: Point, at: Point, p: Part, s: Sample)
    requires Sized(cfg, from, at, p, false)
    ensures Sized(cfg, from, Put(at, p, s), p, true)
  {
    hide Capacity, NoteLast;
    assert OpenIn(Put(at, p, s).mem, p) == OpenIn(at.mem, p) + [s];
  }

  /** A page that is not full is below the capacity. */
  lemma SizedNotFull(cfg: Config, from: Point, at: Point, p: Part, aged: bool)
    requires Sized(cfg, from, at, p, true) && !Full(OpenIn(at.mem, p), cfg.limits, aged)
    ensures Sized(cfg, from, at, p, false)
  {
    ClosesAtCapacity(cfg.limits, |OpenIn(at.mem, p)|);
    hide Capacity;
  }

  // ---------------------------------------------------------------- both together

  /** Fields fit and sizes are kept; `busy` is the partition whose page was just put on. */
  ghost predicate Fine(cfg: Config, from: Point, at: Point, busy: Option<Part>) {
    Sane(at) && forall p :: Sized(cfg, from, at, p, busy == Some(p))
  }

  ghost predicate AllFine(cfg: Config, from: Point, trail: seq<Point>) {
    forall k :: 0 <= k < |trail| ==> SaneDisk(trail[k].disk) && forall p :: Sized(cfg, from, trail[k], p, true)
  }

  lemma FineStart(cfg: Config, at: Point)
    requires Sane(at)
    ensures Fine(cfg, at, at, None)
  {
    hide Sized, Sane;
    forall p ensures Sized(cfg, at, at, p, false) {
      SizedStart(cfg, at, p);
    }
  }

  lemma FineOne(cfg: Config, from: Point, at: Point, busy: Option<Part>)
    requires Fine(cfg, from, at, busy)
    ensures AllFine(cfg, from, [at])
  {
    hide Sized, SaneDisk;
    forall p ensures Sized(cfg, from, at, p, true) {
      if busy != Some(p) {
        SizedOver(cfg, from, at, p);
      }
    }
  }

  lemma FineNone(cfg: Config, from: Point)
    ensures AllFine(cfg, from, [])
  {
  }

  lemma AllFineAppend(cfg: Config, from: Point, a: seq<Point>, b: seq<Point>)
    requires AllFine(cfg, from, a) && AllFine(cfg, from, b)
    ensures AllFine(cfg, from, a + b)
  {
    hide Sized, SaneDisk;
  }

  /** Only frames and open pages matter to the sizes. */
  lemma FineSame(cfg: Config, from: Point, at: Point, next: Point, busy: Option<Part>)
    requires Fine(cfg, from, at, busy) && next.disk.files == at.disk.files
    requires forall p :: OpenIn(next.mem, p) == OpenIn(at.mem, p)
    requires SaneRegistry(next.mem.cat)
    requires forall w :: w in next.disk.wal ==> SaneRecord(w)
    requires forall e :: e in next.disk.saved ==> e.id < TWO_16
    ensures Fine(cfg, from, next, busy)
  {
    hide Sized, SaneRegistry, AllValid;
    forall p ensures Sized(cfg, from, next, p, busy == Some(p)) {
      SizedElsewhere(cfg, from, at, next, p, busy == Some(p));
    }
  }

  lemma FineGives(cfg: Config, from: Point, at: Point, busy: Option<Part>)
    requires Fine(cfg, from, at, busy)
    ensures SaneRegistry(at.mem.cat) && (forall w :: w in at.disk.wal ==> SaneRecord(w))
    ensures forall e :: e in at.disk.saved ==> e.id < TWO_16
  {
    hide Sized;
  }

  lemma FineFlush(cfg: Config, from: Point, at: Point, busy: Option<Part>, q: Part)
    requires Fine(cfg, from, at, busy)
    ensures Fine(cfg, from, FlushDay(at, q), if busy == Some(q) then None else busy)
  {
    hide Sized, SaneRegistry, ValidSample;
    var next, rest := FlushDay(at, q), if busy == Some(q) then None else busy;
    forall p ensures Sized(cfg, from, next, p, rest == Some(p)) {
      if p == q {
        SizedFlush(cfg, from, at, q, busy == Some(q));
      } else {
        SizedElsewhere(cfg, from, at, next, p, busy == Some(p));
      }
    }
    FlushSane(at, q);
  }

  lemma FlushSane(at: Point, q: Part)
    requires Sane(at)
    ensures Sane(FlushDay(at, q))
  {
    hide AllValid, ValidSample, SaneRegistry;
    var next := FlushDay(at, q);
    forall p, i | p in next.disk.files && 0 <= i < |next.disk.files[p]| ensures AllValid(next.disk.files[p][i]) {
      if p != q || i < |FramesIn(at.disk, q)| {
        assert next.disk.files[p][i] == FramesIn(at.disk, p)[i];
      } else {
        assert next.disk.files[p][i] == OpenIn(at.mem, q);
      }
    }
    forall p ensures AllValid(OpenIn(next.mem, p)) {
      assert AllValid(OpenIn(at.mem, p));
      EmptyIsValid();
    }
  }

  lemma EmptyIsValid()
    ensures AllValid([])
  {
  }

  lemma ListingSane(c: Registry)
    requires SaneRegistry(c)
    ensures forall e :: e in Listing(c) ==> e.id < TWO_16
  {
    hide Listing;
    forall e | e in Listing(c) ensures e.id < TWO_16 {
      var i :| 0 <= i < |Listing(c)| && Listing(c)[i] == e;
      ListedAt(c, i);
    }
  }

  lemma FineSave(cfg: Config, from: Point, at: Point, busy: Option<Part>)
    requires Fine(cfg, from, at, busy)
    ensures Fine(cfg, from, SaveIfDirty(at), busy) && AllFine(cfg, from, SaveTrail(at))
  {
    hide Fine, Listing, AllFine;
    FineNone(cfg, from);
    if at.mem.cat.dirty {
      FineGives(cfg, from, at, busy);
      ListingSane(at.mem.cat);
      FineSame(cfg, from, at, Save(at), busy);
      FineOne(cfg, from, Save(at), busy);
    }
  }

  lemma FineWrite(cfg: Config, from: Point, at: Point, busy: Option<Part>, q: Part)
    requires Fine(cfg, from, at, busy)
    ensures Fine(cfg, from, WriteDay(cfg, at, q), if busy == Some(q) then None else busy)
    ensures AllFine(cfg, from, WriteTrail(cfg, at, q))
  {
    hide Fine, AllFine, SaveIfDirty, SaveTrail;
    var flushed, rest := FlushDay(at, q), if busy == Some(q) then None else busy;
    FineFlush(cfg, from, at, busy, q);
    FineSave(cfg, from, flushed, rest);
    FineOne(cfg, from, flushed, rest);
    FineNone(cfg, from);
    hide FlushDay;
    AllFineAppend(cfg, from, [flushed], SaveTrail(flushed));
    assert [flushed] + [] == [flushed];
  }

  lemma FineTruncate(cfg: Config, from: Point, at: Point)
    requires Fine(cfg, from, at, None)
    ensures Fine(cfg, from, Truncate(at), None)
  {
    hide Fine;
    FineGives(cfg, from, at, None);
    FineSame(cfg, from, at, Truncate(at), None);
  }

  lemma FineReset(cfg: Config, from: Point, at: Point)
    requires Fine(cfg, from, at, None)
    ensures Fine(cfg, from, MaybeReset(cfg, at), None) && AllFine(cfg, from, ResetTrail(cfg, at))
  {
    hide Fine, AllFine, SaveIfDirty, SaveTrail, MayReset;
    FineNone(cfg, from);
    FineSave(cfg, from, at, None);
    FineTruncate(cfg, from, SaveIfDirty(at));
    FineOne(cfg, from, Truncate(SaveIfDirty(at)), None);
    hide Truncate;
    AllFineAppend(cfg, from, SaveTrail(at), [Truncate(SaveIfDirty(at))]);
    AllFineAppend(cfg, from, SaveTrail(at), []);
  }

  lemma FineSealed(cfg: Config, from: Point, at: Point, sealed: set<Part>)
    requires Fine(cfg, from, at, None)
    ensures Fine(cfg, from, at.(mem := at.mem.(sealed := sealed)), None)
  {
    hide Fine;
    FineGives(cfg, from, at, None);
    FineSame(cfg, from, at, at.(mem := at.mem.(sealed := sealed)), None);
  }

  lemma FineSeal(cfg: Config, from: Point, at: Point, p: Part)
    requires Fine(cfg, from, at, None)
    ensures Fine(cfg, from, SealDay(cfg, at, p).end, None) && AllFine(cfg, from, SealDay(cfg, at, p).trail)
  {
    hide Fine, AllFine, WriteDay, WriteTrail, MaybeReset, ResetTrail;
    FineWrite(cfg, from, at, None, p);
    var flushed := WriteDay(cfg, at, p);
    FineReset(cfg, from, flushed);
    var reset := MaybeReset(cfg, flushed);
    FineSealed(cfg, from, reset, reset.mem.sealed + {p});
    AllFineAppend(cfg, from, WriteTrail(cfg, at, p), ResetTrail(cfg, flushed));
  }

  lemma FineOpened(cfg: Config, from: Point, at: Point, p: Part)
    requires Fine(cfg, from, at, None) && p !in at.mem.open
    ensures Fine(cfg, from, at.(mem := at.mem.(open := at.mem.open[p := None])), None)
  {
    hide Fine;
    FineGives(cfg, from, at, None);
    FineSame(cfg, from, at, at.(mem := at.mem.(open := at.mem.open[p := None])), None);
  }

  lemma FineEnsure(cfg: Config, from: Point, at: Point, p: Part)
    requires Fine(cfg, from, at, None)
    ensures Fine(cfg, from, EnsureDay(cfg, at, p).end, None) && AllFine(cfg, from, EnsureDay(cfg, at, p).trail)
  {
    hide Fine, AllFine, SealDay;
    FineNone(cfg, from);
    if p !in at.mem.sealed && p !in at.mem.open {
      if |at.mem.open| >= cfg.MaxActive() {
        var sealed := SealDay(cfg, at, Oldest(at.mem.open)).end;
        FineSeal(cfg, from, at, Oldest(at.mem.open));
        SealKeepsOthers(cfg, at, Oldest(at.mem.open), p);
        FineOpened(cfg, from, sealed, p);
      } else {
        FineOpened(cfg, from, at, p);
      }
    }
  }

  lemma SealKeepsOthers(cfg: Config, at: Point, q: Part, p: Part)
    requires p !in at.mem.open
    ensures p !in SealDay(cfg, at, q).end.mem.open
  {
    hide WriteDay, MaybeReset;
    WriteStores(cfg, at, q);
    ResetStores(cfg, WriteDay(cfg, at, q));
  }

  lemma {:induction false} FineFlushFull(cfg: Config, from: Point, at: Point, today: Part, order: seq<Part>, aged: set<Part>)
    requires Fine(cfg, from, at, Some(today))
    ensures var out := FlushFull(cfg, at, today, order, aged);
            Fine(cfg, from, out.end, Some(today)) && AllFine(cfg, from, out.trail) && OpenIn(out.end.mem, today) == OpenIn(at.mem, today)
  {
    hide Fine, AllFine, Full, WriteDay, WriteTrail;
    FineNone(cfg, from);
    if order != [] {
      var init, p := order[..|order| - 1], order[|order| - 1];
      FineFlushFull(cfg, from, at, today, init, aged);
      var prev := FlushFull(cfg, at, today, init, aged);
      FineWrite(cfg, from, prev.end, Some(today), p);
      WriteStores(cfg, prev.end, p);
      AllFineAppend(cfg, from, prev.trail, WriteTrail(cfg, prev.end, p));
    }
  }

  lemma FineSettles(cfg: Config, from: Point, at: Point, p: Part, aged: bool)
    requires Fine(cfg, from, at, Some(p)) && !Full(OpenIn(at.mem, p), cfg.limits, aged)
    ensures Fine(cfg, from, at, None)
  {
    hide Sized, Sane, Full;
    forall q ensures Sized(cfg, from, at, q, false) {
      assert Sized(cfg, from, at, q, Some(p) == Some(q));
      if q == p {
        SizedNotFull(cfg, from, at, p, aged);
      }
    }
  }

  lemma FineAfterPut(cfg: Config, from: Point, put: Point, q: Request)
    requires Fine(cfg, from, put, Some(cfg.part(q.ts)))
    ensures Fine(cfg, from, AfterPut(cfg, put, q).end, None) && AllFine(cfg, from, AfterPut(cfg, put, q).trail)
  {
    hide Fine, AllFine, Full, FlushFull, WriteDay, WriteTrail, MaybeReset, ResetTrail;
    var p := cfg.part(q.ts);
    FineFlushFull(cfg, from, put, p, q.order, q.aged);
    var others := FlushFull(cfg, put, p, q.order, q.aged);
    if !Full(OpenIn(put.mem, p), cfg.limits, p in q.aged) {
      FineSettles(cfg, from, others.end, p, p in q.aged);
    } else {
      FineWrite(cfg, from, others.end, Some(p), p);
      var flushed := WriteDay(cfg, others.end, p);
      FineReset(cfg, from, flushed);
      AllFineAppend(cfg, from, others.trail, WriteTrail(cfg, others.end, p));
      AllFineAppend(cfg, from, others.trail + WriteTrail(cfg, others.end, p), ResetTrail(cfg, flushed));
    }
  }

  lemma FineAppend(cfg: Config, from: Point, at: Point, w: Option<Logged>)
    requires Fine(cfg, from, at, None) && (w.Some? ==> SaneRecord(w.value))
    ensures Fine(cfg, from, AppendLog(at, w), None)
  {
    hide Fine, SaneRecord;
    FineGives(cfg, from, at, None);
    FineSame(cfg, from, at, AppendLog(at, w), None);
  }

  lemma NoteSane(c: Registry, id: nat, ts: Timestamp)
    requires SaneRegistry(c)
    ensures SaneRegistry(NoteLast(c, id, ts))
  {
  }

  lemma FinePut(cfg: Config, from: Point, at: Point, p: Part, s: Sample)
    requires Fine(cfg, from, at, None) && ValidSample(s)
    ensures Fine(cfg, from, Put(at, p, s), Some(p))
  {
    hide Sized, SaneRegistry, ValidSample, NoteLast;
    NoteSane(at.mem.cat, s.id, s.ts);
    var next := Put(at, p, s);
    var none: Option<Part> := None;
    forall q ensures Sized(cfg, from, next, q, Some(p) == Some(q)) && AllValid(OpenIn(next.mem, q)) {
      assert AllValid(OpenIn(at.mem, q)) && Sized(cfg, from, at, q, none == Some(q));
      if q == p {
        SizedPut(cfg, from, at, p, s);
        assert OpenIn(next.mem, p) == OpenIn(at.mem, p) + [s];
      } else {
        SizedElsewhere(cfg, from, at, next, q, false);
      }
    }
  }

  lemma FineLogTrail(cfg: Config, from: Point, w: Option<Logged>, pt: Point, busy: Option<Part>)
    requires Fine(cfg, from, pt, busy)
    ensures AllFine(cfg, from, LogTrail(w, pt))
  {
    hide Fine, AllFine;
    FineOne(cfg, from, pt, busy);
    FineNone(cfg, from);
  }

  lemma FineLogAndPut(cfg: Config, from: Point, at: Point, w: Option<Logged>, s: Sample, q: Request)
    requires Fine(cfg, from, at, None) && ValidSample(s) && s.ts == q.ts && (w.Some? ==> w.value.sample == s && SaneRecord(w.value))
    ensures Fine(cfg, from, LogAndPut(cfg, at, w, s, q).end, None) && AllFine(cfg, from, LogAndPut(cfg, at, w, s, q).trail)
  {
    hide Fine, AllFine, AppendLog, LogTrail, Put, AfterPut, WriteDay, WriteTrail, Refuses, ValidSample, SaneRecord;
    var p := cfg.part(s.ts);
    var logged := AppendLog(at, w);
    FineAppend(cfg, from, at, w);
    FineLogTrail(cfg, from, w, logged, None);
    if !Refuses(at.mem, p, s.ts) {
      var put := Put(logged, p, s);
      FinePut(cfg, from, logged, p, s);
      FineLogTrail(cfg, from, w, put, Some(p));
      FineAfterPut(cfg, from, put, q);
      AllFineAppend(cfg, from, LogTrail(w, put), AfterPut(cfg, put, q).trail);
    } else if q.retry {
      FineWrite(cfg, from, logged, None, p);
      var flushed := WriteDay(cfg, logged, p);
      var put := Put(flushed, p, s);
      FinePut(cfg, from, flushed, p, s);
      FineAfterPut(cfg, from, put, q);
      AllFineAppend(cfg, from, LogTrail(w, logged), WriteTrail(cfg, logged, p));
      AllFineAppend(cfg, from, LogTrail(w, logged) + WriteTrail(cfg, logged, p), AfterPut(cfg, put, q).trail);
    }
  }

  lemma GivenSane(c: Registry, name: MetricName, vt: SampleType)
    requires SaneRegistry(c)
    ensures SaneRegistry(GetId(c, name, vt).0)
    ensures GetId(c, name, vt).1.Ok? ==> GetId(c, name, vt).1.value < TWO_16
    ensures GetId(c, name, vt).1.Ok? && name !in c.metrics ==> GetId(c, name, vt).1.value >= 1
  {
  }

  lemma EntrySane(cfg: Config, known: bool, q: Request, id: nat)
    requires id < TWO_16 && (!known ==> id >= 1)
    ensures var w := EntryFor(cfg, known, q, id);
            w.Some? ==> SaneRecord(w.value)
  {
  }

  lemma FineRenamed(cfg: Config, from: Point, at: Point, c: Registry)
    requires Fine(cfg, from, at, None) && SaneRegistry(c)
    ensures Fine(cfg, from, at.(mem := at.mem.(cat := c)), None)
  {
    hide Fine;
    FineGives(cfg, from, at, None);
    FineSame(cfg, from, at, at.(mem := at.mem.(cat := c)), None);
  }

  lemma FineAdd(cfg: Config, from: Point, at: Point, q: Request)
    requires Fine(cfg, from, at, None)
    ensures Fine(cfg, from, AddSample(cfg, at, q).end, None) && AllFine(cfg, from, AddSample(cfg, at, q).trail)
  {
    hide Fine, AllFine, EnsureDay, LogAndPut, EntryFor, GetId, SaneRegistry;
    FineNone(cfg, from);
    FineEnsure(cfg, from, at, cfg.part(q.ts));
    var ready := EnsureDay(cfg, at, cfg.part(q.ts));
    if ready.err.None? && !IsStale(at.mem.cat, q) {
      var (c, given) := GetId(ready.end.mem.cat, q.name, q.valueType);
      var named := ready.end.(mem := ready.end.mem.(cat := c));
      FineGives(cfg, from, ready.end, None);
      GivenSane(ready.end.mem.cat, q.name, q.valueType);
      FineRenamed(cfg, from, ready.end, c);
      if given.Ok? {
        var s := Sample(given.value, q.ts, q.raw);
        var w := EntryFor(cfg, q.name in at.mem.cat.metrics, q, given.value);
        EntryIsSample(cfg, q.name in at.mem.cat.metrics, q, given.value);
        EnsureStores(cfg, at, cfg.part(q.ts));
        EntrySane(cfg, q.name in at.mem.cat.metrics, q, given.value);
        FineLogAndPut(cfg, from, named, w, s, q);
        AllFineAppend(cfg, from, ready.trail, LogAndPut(cfg, named, w, s, q).trail);
      }
    }
  }

  lemma {:induction false} FineFlushDays(cfg: Config, from: Point, at: Point, order: seq<Part>)
    requires Fine(cfg, from, at, None)
    ensures Fine(cfg, from, FlushDays(cfg, at, order).end, None) && AllFine(cfg, from, FlushDays(cfg, at, order).trail)
  {
    hide Fine, AllFine, WriteDay, WriteTrail;
    FineNone(cfg, from);
    if order != [] {
      var init, p := order[..|order| - 1], order[|order| - 1];
      FineFlushDays(cfg, from, at, init);
      var prev := FlushDays(cfg, at, init);
      FineWrite(cfg, from, prev.end, None, p);
      AllFineAppend(cfg, from, prev.trail, WriteTrail(cfg, prev.end, p));
    }
  }

  /** Every operation keeps the fields and the sizes, at each of its durable writes. */
  lemma FinePerform(cfg: Config, from: Point, at: Point, op: Op)
    requires Fine(cfg, from, at, None)
    ensures Fine(cfg, from, Perform(cfg, at, op).end, None) && AllFine(cfg, from, Perform(cfg, at, op).trail)
  {
    hide Fine, AllFine, AddSample, FlushDays, MaybeReset, ResetTrail, SaveIfDirty, SaveTrail;
    match op
    case Ingest(q) => FineAdd(cfg, from, at, q);
    case FlushOpen(order) =>
      FineFlushDays(cfg, from, at, order);
      var flushed := FlushDays(cfg, at, order);
      FineReset(cfg, from, flushed.end);
      var reset := MaybeReset(cfg, flushed.end);
      FineSave(cfg, from, reset, None);
      AllFineAppend(cfg, from, flushed.trail, ResetTrail(cfg, flushed.end));
      AllFineAppend(cfg, from, flushed.trail + ResetTrail(cfg, flushed.end), SaveTrail(reset));
  }

  lemma {:induction false} FineProcess(cfg: Config, at: Point, ops: seq<Op>)
    requires Sane(at)
    ensures Fine(cfg, at, After(cfg, at, ops), None)
  {
    hide Fine, Sane, Perform;
    if ops == [] {
      FineStart(cfg, at);
    } else {
      FineProcess(cfg, at, ops[..|ops| - 1]);
      FinePerform(cfg, at, After(cfg, at, ops[..|ops| - 1]), ops[|ops| - 1]);
    }
  }
}
