/**
 Runs in which no metric goes unrecorded: every name is valid UTF-8, and the first sample of a metric goes to the log.
 In them catalog.json and the log always pin exactly the metrics of the registry, so the ids stay 1..n over every crash.
 */
module MetricNaming {
  import opened Prelude
  import opened Bytes
  import opened Names
  import opened Samples
  import opened MetricRegistry
  import opened MetricEngine
  import opened MetricInvariant
  import opened MetricIngest
  import opened MetricReplay
  import opened MetricRuns
  import opened MetricRecovery

  // ---------------------------------------------------------------- what is kept

  /** The registry can be saved and loaded again, and the files pin its metrics and no others; those of `since` among them. */
  ghost predicate Kept(since: set<Pin>, at: Point) {
    var c := at.mem.cat;
    && Numbered(c) && Savable(c) && Loadable(at.disk.saved)
    && since <= DiskPins(at.disk) == PinsOf(c)
    && (!c.dirty ==> SavedPins(at.disk.saved) == PinsOf(c))
  }

  ghost predicate AllKept(since: set<Pin>, trail: seq<Point>) {
    forall k :: 0 <= k < |trail| ==> Kept(since, trail[k])
  }

  lemma AllKeptAppend(since: set<Pin>, a: seq<Point>, b: seq<Point>)
    requires AllKept(since, a) && AllKept(since, b)
    ensures AllKept(since, a + b)
  {
    hide Kept;
  }

  /** Frames and open days do not matter. */
  lemma KeptElsewhere(since: set<Pin>, at: Point, next: Point)
    requires Kept(since, at) && next.disk.saved == at.disk.saved && next.disk.wal == at.disk.wal && next.mem.cat == at.mem.cat
    ensures Kept(since, next)
  {
    hide Numbered, Savable, Loadable, PinsOf;
  }

  /** Nor does what is noted of a metric's last time. */
  lemma KeptNoted(since: set<Pin>, at: Point, p: Part, s: Sample)
    requires Kept(since, at)
    ensures Kept(since, Put(at, p, s))
  {
    var c, d := at.mem.cat, Put(at, p, s).mem.cat;
    NoteLastPins(c, s.id, s.ts);
    NoteLastSavable(c, s.id, s.ts);
    NumberedIffGapFree(c);
    NumberedIffGapFree(d);
    hide Numbered, Savable, Loadable, PinsOf, GapFree, NoteLast;
  }

  lemma NoteLastSavable(c: Registry, id: nat, ts: Timestamp)
    requires Linked(c) && Savable(c)
    ensures Savable(NoteLast(c, id, ts))
  {
    hide IsText;
  }

  lemma SavesAgain(c: Registry)
    requires Numbered(c) && Savable(c)
    ensures Loadable(Listing(c)) && SavedPins(Listing(c)) == PinsOf(c)
    ensures var d := c.(dirty := false);
            Numbered(d) && Savable(d) && PinsOf(d) == PinsOf(c)
  {
    hide Listing, IsText;
    ListingLoads(c);
    ListingPins(c);
    CleanPins(c);
  }

  lemma KeptSaved(since: set<Pin>, at: Point)
    requires Kept(since, at)
    ensures Kept(since, SaveIfDirty(at)) && AllKept(since, SaveTrail(at)) && !SaveIfDirty(at).mem.cat.dirty
  {
    hide Numbered, Savable, Loadable, Listing, PinsOf, SavedPins, LogPins;
    if at.mem.cat.dirty {
      SavesAgain(at.mem.cat);
      var next := Save(at);
      assert LogPins(at.disk.wal) <= PinsOf(at.mem.cat);
      assert DiskPins(next.disk) == PinsOf(next.mem.cat);
    }
  }

  lemma KeptTruncated(since: set<Pin>, at: Point)
    requires Kept(since, at) && !at.mem.cat.dirty
    ensures Kept(since, Truncate(at))
  {
    hide Numbered, Savable, Loadable, PinsOf;
    assert LogPins([]) == {};
  }

  lemma KeptWrite(since: set<Pin>, cfg: Config, at: Point, p: Part)
    requires Kept(since, at)
    ensures Kept(since, WriteDay(cfg, at, p)) && AllKept(since, WriteTrail(cfg, at, p))
  {
    var flushed := FlushDay(at, p);
    KeptElsewhere(since, at, flushed);
    KeptSaved(since, flushed);
    hide Kept, SaveIfDirty, SaveTrail;
  }

  lemma KeptReset(since: set<Pin>, cfg: Config, at: Point)
    requires Kept(since, at)
    ensures Kept(since, MaybeReset(cfg, at)) && AllKept(since, ResetTrail(cfg, at))
  {
    hide Kept, SaveTrail, Save;
    KeptSaved(since, at);
    if MayReset(cfg, at) {
      KeptTruncated(since, SaveIfDirty(at));
    }
  }

  // ---------------------------------------------------------------- operations

  lemma KeptSeal(since: set<Pin>, cfg: Config, at: Point, p: Part)
    requires Kept(since, at)
    ensures Kept(since, SealDay(cfg, at, p).end) && AllKept(since, SealDay(cfg, at, p).trail)
  {
    hide Kept, WriteDay, WriteTrail, MaybeReset, ResetTrail;
    KeptWrite(since, cfg, at, p);
    var flushed := WriteDay(cfg, at, p);
    KeptReset(since, cfg, flushed);
    KeptElsewhere(since, MaybeReset(cfg, flushed), SealDay(cfg, at, p).end);
    AllKeptAppend(since, WriteTrail(cfg, at, p), ResetTrail(cfg, flushed));
  }

  lemma KeptEnsure(since: set<Pin>, cfg: Config, at: Point, p: Part)
    requires Kept(since, at)
    ensures Kept(since, EnsureDay(cfg, at, p).end) && AllKept(since, EnsureDay(cfg, at, p).trail)
  {
    hide Kept, SealDay;
    if p !in at.mem.sealed && p !in at.mem.open {
      if |at.mem.open| >= cfg.MaxActive() {
        KeptSeal(since, cfg, at, Oldest(at.mem.open));
        KeptElsewhere(since, SealDay(cfg, at, Oldest(at.mem.open)).end, EnsureDay(cfg, at, p).end);
      } else {
        KeptElsewhere(since, at, EnsureDay(cfg, at, p).end);
      }
    }
  }

  lemma {:induction false} KeptFlushFull(since: set<Pin>, cfg: Config, at: Point, today: Part, order: seq<Part>, aged: set<Part>)
    requires Kept(since, at)
    ensures var out := FlushFull(cfg, at, today, order, aged);
            Kept(since, out.end) && AllKept(since, out.trail)
  {
    hide Kept, Full, WriteDay, WriteTrail;
    if order != [] {
      var init, p := order[..|order| - 1], order[|order| - 1];
      KeptFlushFull(since, cfg, at, today, init, aged);
      var prev := FlushFull(cfg, at, today, init, aged);
      KeptWrite(since, cfg, prev.end, p);
      AllKeptAppend(since, prev.trail, WriteTrail(cfg, prev.end, p));
    }
  }

  lemma KeptAfterPut(since: set<Pin>, cfg: Config, put: Point, q: Request)
    requires Kept(since, put)
    ensures Kept(since, AfterPut(cfg, put, q).end) && AllKept(since, AfterPut(cfg, put, q).trail)
  {
    hide Kept, AllKept, Full, FlushFull, WriteDay, WriteTrail, MaybeReset, ResetTrail;
    var p := cfg.part(q.ts);
    KeptFlushFull(since, cfg, put, p, q.order, q.aged);
    var others := FlushFull(cfg, put, p, q.order, q.aged);
    KeptWrite(since, cfg, others.end, p);
    var flushed := WriteDay(cfg, others.end, p);
    KeptReset(since, cfg, flushed);
    AllKeptAppend(since, others.trail, WriteTrail(cfg, others.end, p));
    AllKeptAppend(since, others.trail + WriteTrail(cfg, others.end, p), ResetTrail(cfg, flushed));
  }

  lemma KeptLogTrail(since: set<Pin>, w: Option<Logged>, pt: Point)
    requires Kept(since, pt)
    ensures AllKept(since, LogTrail(w, pt))
  {
    hide Kept;
  }

  lemma KeptLogAndPut(since: set<Pin>, cfg: Config, at: Point, w: Option<Logged>, s: Sample, q: Request)
    requires Kept(since, AppendLog(at, w))
    ensures Kept(since, LogAndPut(cfg, at, w, s, q).end) && AllKept(since, LogAndPut(cfg, at, w, s, q).trail)
  {
    hide Kept, AllKept, AppendLog, LogTrail, Put, AfterPut, WriteDay, WriteTrail, Refuses;
    var p := cfg.part(s.ts);
    var logged := AppendLog(at, w);
    KeptLogTrail(since, w, logged);
    if !Refuses(at.mem, p, s.ts) {
      var put := Put(logged, p, s);
      KeptNoted(since, logged, p, s);
      KeptLogTrail(since, w, put);
      KeptAfterPut(since, cfg, put, q);
      AllKeptAppend(since, LogTrail(w, put), AfterPut(cfg, put, q).trail);
    } else if q.retry {
      KeptWrite(since, cfg, logged, p);
      var put := Put(WriteDay(cfg, logged, p), p, s);
      KeptNoted(since, WriteDay(cfg, logged, p), p, s);
      KeptAfterPut(since, cfg, put, q);
      AllKeptAppend(since, LogTrail(w, logged), WriteTrail(cfg, logged, p));
      AllKeptAppend(since, LogTrail(w, logged) + WriteTrail(cfg, logged, p), AfterPut(cfg, put, q).trail);
    }
  }

  /** The name is valid UTF-8, and the first sample of a metric goes to the log. */
  ghost predicate Recorded(cfg: Config, at: Point, op: Op) {
    op.Ingest? ==> IsText(op.q.name) && (op.q.name in at.mem.cat.metrics || UsesLog(cfg, op.q))
  }

  /** Giving a new metric an id and logging its name keeps files and registry together. */
  lemma KeptNamed(since: set<Pin>, at: Point, name: MetricName, vt: SampleType, s: Sample)
    requires Kept(since, at) && IsText(name) && name !in at.mem.cat.metrics && s.id == |at.mem.cat.metrics| + 1
    ensures var named := at.(mem := at.mem.(cat := Register(at.mem.cat, name, s.id, vt)));
            Kept(since, AppendLog(named, Some(Naming(name, vt, s))))
  {
    var c := at.mem.cat;
    NextIdNumbered(c, name, vt);
    RegisterPins(c, name, s.id, vt);
    LogPinsSnoc(at.disk.wal, Naming(name, vt, s));
    RegisterSavable(c, name, s.id, vt);
    hide Numbered, Savable, Loadable, PinsOf, LogPins, SavedPins, IsText;
    assert IsMetricName(name);
  }

  lemma RegisterSavable(c: Registry, name: MetricName, id: nat, vt: SampleType)
    requires Savable(c) && IsText(name) && id != 0
    ensures Savable(Register(c, name, id, vt))
  {
    hide IsText;
    assert IsMetricName(name) && IsSampleType(vt);
  }

  lemma KeptNameless(since: set<Pin>, at: Point, s: Sample)
    requires Kept(since, at)
    ensures Kept(since, AppendLog(at, Some(Nameless(s))))
  {
    LogPinsSnoc(at.disk.wal, Nameless(s));
    hide Numbered, Savable, Loadable, PinsOf, LogPins, SavedPins;
    assert LogPins(at.disk.wal) + {} == LogPins(at.disk.wal);
  }

  /** The point a call logs at, whatever it logs. */
  lemma KeptEntry(since: set<Pin>, cfg: Config, at: Point, q: Request, given: nat)
    requires Kept(since, at) && IsText(q.name) && (q.name in at.mem.cat.metrics || UsesLog(cfg, q))
    requires GetId(at.mem.cat, q.name, q.valueType).1 == Ok(given)
    ensures var named := at.(mem := at.mem.(cat := GetId(at.mem.cat, q.name, q.valueType).0));
            Kept(since, AppendLog(named, EntryFor(cfg, q.name in at.mem.cat.metrics, q, given)))
  {
    hide Kept, IsText;
    var s := Sample(given, q.ts, q.raw);
    if q.name !in at.mem.cat.metrics {
      KeptNamed(since, at, q.name, q.valueType, s);
    } else {
      assert at.(mem := at.mem.(cat := at.mem.cat)) == at;
      if UsesLog(cfg, q) {
        KeptNameless(since, at, s);
      } else {
        assert AppendLog(at, None) == at;
      }
    }
  }

  lemma KeptAdd(since: set<Pin>, cfg: Config, at: Point, q: Request)
    requires Kept(since, at) && Recorded(cfg, at, Ingest(q))
    ensures Kept(since, AddSample(cfg, at, q).end) && AllKept(since, AddSample(cfg, at, q).trail)
  {
    hide Kept, AllKept, EnsureDay, LogAndPut, EntryFor, IsText, UsesLog;
    KeptEnsure(since, cfg, at, cfg.part(q.ts));
    EnsureStores(cfg, at, cfg.part(q.ts));
    var ready := EnsureDay(cfg, at, cfg.part(q.ts));
    var (c, given) := GetId(ready.end.mem.cat, q.name, q.valueType);
    AllKeptNone(since);
    if ready.err.None? && !IsStale(at.mem.cat, q) {
      var named := ready.end.(mem := ready.end.mem.(cat := c));
      if given.Ok? {
        KeptEntry(since, cfg, ready.end, q, given.value);
        var known, s := q.name in at.mem.cat.metrics, Sample(given.value, q.ts, q.raw);
        var w := EntryFor(cfg, known, q, given.value);
        KeptLogAndPut(since, cfg, named, w, s, q);
        AllKeptAppend(since, ready.trail, LogAndPut(cfg, named, w, s, q).trail);
      } else {
        KeptElsewhere(since, ready.end, named);
      }
    }
  }

  lemma AllKeptNone(since: set<Pin>)
    ensures AllKept(since, [])
  {
  }

  lemma {:induction false} KeptFlushDays(since: set<Pin>, cfg: Config, at: Point, order: seq<Part>)
    requires Kept(since, at)
    ensures Kept(since, FlushDays(cfg, at, order).end) && AllKept(since, FlushDays(cfg, at, order).trail)
  {
    hide Kept, WriteDay, WriteTrail;
    if order != [] {
      var init, p := order[..|order| - 1], order[|order| - 1];
      KeptFlushDays(since, cfg, at, init);
      var prev := FlushDays(cfg, at, init);
      KeptWrite(since, cfg, prev.end, p);
      AllKeptAppend(since, prev.trail, WriteTrail(cfg, prev.end, p));
    }
  }

  /** Every durable write of an operation keeps files and registry together. */
  lemma PerformKeeps(since: set<Pin>, cfg: Config, at: Point, op: Op)
    requires Kept(since, at) && Recorded(cfg, at, op)
    ensures Kept(since, Perform(cfg, at, op).end) && AllKept(since, Perform(cfg, at, op).trail)
  {
    hide Kept, AllKept, AddSample, FlushDays, MaybeReset, ResetTrail, SaveIfDirty, SaveTrail, Recorded;
    match op
    case Ingest(q) => KeptAdd(since, cfg, at, q);
    case FlushOpen(order) =>
      KeptFlushDays(since, cfg, at, order);
      var flushed := FlushDays(cfg, at, order);
      KeptReset(since, cfg, flushed.end);
      var reset := MaybeReset(cfg, flushed.end);
      KeptSaved(since, reset);
      AllKeptAppend(since, flushed.trail, ResetTrail(cfg, flushed.end));
      AllKeptAppend(since, flushed.trail + ResetTrail(cfg, flushed.end), SaveTrail(reset));
  }

  // ---------------------------------------------------------------- what the files keep

  /** A pin that catalog.json can hold as it is. */
  ghost predicate GoodPin(p: Pin) {
    p.name != [] && IsText(p.name) && p.id != 0 && IsSampleType(p.valueType)
  }

  /** catalog.json loads, and with the log it pins ids 1..n, each to one name, those of `since` among them. */
  ghost predicate DiskKept(since: set<Pin>, d: Disk) {
    && Loadable(d.saved) && Agree(DiskPins(d)) && GapFree(DiskPins(d)) && since <= DiskPins(d)
    && forall p :: p in DiskPins(d) ==> GoodPin(p)
  }

  ghost predicate AllDisksKept(since: set<Pin>, trail: seq<Point>) {
    forall k :: 0 <= k < |trail| ==> DiskKept(since, trail[k].disk)
  }

  lemma KeptOnDisk(since: set<Pin>, at: Point)
    requires Kept(since, at)
    ensures DiskKept(since, at.disk)
  {
    PinsGive(at.mem.cat);
    NumberedIffGapFree(at.mem.cat);
    hide Loadable, IsText, GapFree, Agree, Linked, SavedPins, LogPins;
  }

  lemma AllKeptOnDisk(since: set<Pin>, trail: seq<Point>)
    requires AllKept(since, trail)
    ensures AllDisksKept(since, trail)
  {
    hide Kept, DiskKept;
    forall k | 0 <= k < |trail| ensures DiskKept(since, trail[k].disk) {
      KeptOnDisk(since, trail[k]);
    }
  }

  // ---------------------------------------------------------------- replay

  /** The state of a replay of d when the registry pins s: catalog.json has been saved anew or not. */
  ghost predicate Between(d: Disk, s: set<Pin>, at: Point) {
    && Pinning(at.mem.cat, s) && s <= DiskPins(d)
    && at.disk.wal == d.wal && Loadable(at.disk.saved)
    && SavedPins(d.saved) <= SavedPins(at.disk.saved) <= s
    && (!at.mem.cat.dirty ==> SavedPins(at.disk.saved) == s)
  }

  lemma BetweenOnDisk(since: set<Pin>, d: Disk, s: set<Pin>, at: Point)
    requires DiskKept(since, d) && Between(d, s, at)
    ensures DiskKept(since, at.disk)
  {
    hide Loadable, GoodPin, GapFree, Agree, Pinning, SavedPins, LogPins;
    assert DiskPins(at.disk) == DiskPins(d);
  }

  lemma BetweenElsewhere(d: Disk, s: set<Pin>, at: Point, next: Point)
    requires Between(d, s, at)
    requires next.disk.saved == at.disk.saved && next.disk.wal == at.disk.wal && next.mem.cat == at.mem.cat
    ensures Between(d, s, next)
  {
    hide Loadable, Pinning, SavedPins;
  }

  lemma BetweenNoted(d: Disk, s: set<Pin>, at: Point, p: Part, x: Sample)
    requires Between(d, s, at)
    ensures Between(d, s, Put(at, p, x))
  {
    NoteLastPins(at.mem.cat, x.id, x.ts);
    hide Loadable, SavedPins, NoteLast, Linked, PinsOf;
  }

  lemma PinnedIsSavable(since: set<Pin>, d: Disk, s: set<Pin>, c: Registry)
    requires DiskKept(since, d) && s <= DiskPins(d) && Pinning(c, s)
    ensures Savable(c)
  {
    hide Loadable, GapFree, Agree, Linked, IsText;
    forall n | n in c.metrics ensures n != [] && IsText(n) && c.metrics[n].id != 0 && IsSampleType(c.metrics[n].valueType) {
      assert PinOf(c, n) in PinsOf(c);
      assert GoodPin(PinOf(c, n));
    }
  }

  lemma BetweenSaved(since: set<Pin>, d: Disk, s: set<Pin>, at: Point)
    requires DiskKept(since, d) && Between(d, s, at)
    ensures Between(d, s, SaveIfDirty(at)) && AllDisksKept(since, SaveTrail(at))
  {
    hide Loadable, Savable, Linked, PinsOf, SavedPins, Listing, DiskKept;
    if at.mem.cat.dirty {
      var c := at.mem.cat;
      PinnedIsSavable(since, d, s, c);
      ListingLoads(c);
      ListingPins(c);
      CleanPins(c);
      assert Between(d, s, Save(at));
      BetweenOnDisk(since, d, s, Save(at));
    }
  }

  lemma BetweenWrite(since: set<Pin>, cfg: Config, d: Disk, s: set<Pin>, at: Point, p: Part)
    requires DiskKept(since, d) && Between(d, s, at)
    ensures Between(d, s, WriteDay(cfg, at, p)) && AllDisksKept(since, WriteTrail(cfg, at, p))
  {
    hide Between, DiskKept, SaveIfDirty, SaveTrail, Loadable, SavedPins, LogPins;
    var flushed := FlushDay(at, p);
    FlushKeepsRest(at, p);
    BetweenElsewhere(d, s, at, flushed);
    BetweenSaved(since, d, s, flushed);
    BetweenOnDisk(since, d, s, flushed);
    hide FlushDay;
    AllDisksAppend(since, [flushed], SaveTrail(flushed));
  }

  lemma FlushKeepsRest(at: Point, p: Part)
    ensures var next := FlushDay(at, p);
            next.disk.saved == at.disk.saved && next.disk.wal == at.disk.wal && next.mem.cat == at.mem.cat
  {
  }

  lemma BetweenReinsert(since: set<Pin>, cfg: Config, pt: Point, un: multiset<Sample>, k: nat, at: Point, s: set<Pin>)
    requires k < |pt.disk.wal| && Tracking(cfg, pt, un, k, at)
    requires var x := pt.disk.wal[k].sample;
             x.ts >= 0 && OpenIn(pt.mem, cfg.part(x.ts)) != []
    requires DiskKept(since, pt.disk) && Between(pt.disk, s, at)
    ensures var out := Reinsert(cfg, at, pt.disk.wal[k].sample);
            Between(pt.disk, s, out.end) && AllDisksKept(since, out.trail)
  {
    hide EnsureDay, Put, Refuses, Tracking, WriteDay, WriteTrail, Between, DiskKept;
    var d, x := pt.disk, pt.disk.wal[k].sample;
    var p := cfg.part(x.ts);
    EnsureOnlyOpens(cfg, pt, un, k, at, p);
    var ready := EnsureDay(cfg, at, p).end;
    BetweenElsewhere(d, s, at, ready);
    if !Refuses(ready.mem, p, x.ts) {
      BetweenNoted(d, s, ready, p, x);
    } else {
      RefusesOpen(ready.mem, p, x.ts);
      var flushed := WriteDay(cfg, ready, p);
      WriteTracks(cfg, pt, un, k, ready, p);
      BetweenWrite(since, cfg, d, s, ready, p);
      EnsureOnlyOpens(cfg, pt, un, k, flushed, p);
      var again := EnsureDay(cfg, flushed, p).end;
      BetweenElsewhere(d, s, flushed, again);
      BetweenNoted(d, s, again, p, x);
      assert [] + WriteTrail(cfg, ready, p) + [] == WriteTrail(cfg, ready, p);
    }
  }

  lemma RefusesOpen(m: Mem, p: Part, ts: Timestamp)
    requires Refuses(m, p, ts)
    ensures OpenIn(m, p) != []
  {
  }

  /** The pin a record carries, if any. */
  ghost function Carried(w: Logged): set<Pin> {
    if w.Naming? then {LoggedPin(w)} else {}
  }

  lemma CarriedIsLogged(d: Disk, k: nat)
    requires k < |d.wal|
    ensures Carried(d.wal[k]) == LogPins([d.wal[k]]) <= DiskPins(d)
  {
    var w := d.wal[k];
    LogPinsSnoc([], w);
    assert [] + [w] == [w] && LogPins([]) == {};
    assert w.Naming? ==> LoggedPin(w) in LogPins(d.wal);
  }

  lemma NamedIsDirty(c: Registry, w: Logged, s: set<Pin>)
    requires Pinning(c, s) && NameRecord(c, w).Ok?
    ensures !NameRecord(c, w).value.dirty ==> !c.dirty && Carried(w) <= s
  {
    if w.Naming? {
      EnsureIff(c, w.name, w.sample.id, w.valueType);
    }
  }

  lemma BetweenMore(d: Disk, s: set<Pin>, more: set<Pin>, at: Point, next: Point)
    requires Between(d, s, at) && more <= DiskPins(d) && Pinning(next.mem.cat, s + more)
    requires next.disk == at.disk && (!next.mem.cat.dirty ==> !at.mem.cat.dirty && more <= s)
    ensures Between(d, s + more, next)
  {
    hide Loadable, Linked, PinsOf, SavedPins, LogPins;
    assert more <= s ==> s + more == s;
  }

  /** Naming a record, when no pin of the files contradicts another. */
  lemma BetweenNamed(since: set<Pin>, d: Disk, s: set<Pin>, at: Point, k: nat)
    requires DiskKept(since, d) && Between(d, s, at) && k < |d.wal|
    requires d.wal[k].Nameless? ==> HasId(s, d.wal[k].sample.id)
    ensures NameRecord(at.mem.cat, d.wal[k]).Ok?
    ensures Between(d, s + LogPins([d.wal[k]]), at.(mem := at.mem.(cat := NameRecord(at.mem.cat, d.wal[k]).value)))
  {
    hide Loadable, GoodPin, GapFree, Agree, Pinning, SavedPins, LogPins, Fits, HasId, DiskPins, NameRecord;
    var w := d.wal[k];
    CarriedIsLogged(d, k);
    FitsAmong(d, s, w);
    NameRecordIff(at.mem.cat, w, s);
    NamedIsDirty(at.mem.cat, w, s);
    BetweenMore(d, s, Carried(w), at, at.(mem := at.mem.(cat := NameRecord(at.mem.cat, w).value)));
  }

  lemma FitsAmong(d: Disk, s: set<Pin>, w: Logged)
    requires Agree(DiskPins(d)) && s <= DiskPins(d) && Carried(w) <= DiskPins(d)
    ensures w.Naming? ==> Fits(s, LoggedPin(w))
  {
  }

  lemma BetweenTurn(since: set<Pin>, cfg: Config, pt: Point, un: multiset<Sample>, k: nat, prev: Replayed, s: set<Pin>)
    requires k < |pt.disk.wal| && Inv(cfg, pt, un)
    requires Tracking(cfg, pt, un, k, prev.out.end) && Resuming(cfg, pt, un, prev) && prev.out.err.None?
    requires DiskKept(since, pt.disk) && Between(pt.disk, s, prev.out.end) && SavedPins(pt.disk.saved) <= s
    requires pt.disk.wal[k].Nameless? ==> HasId(s, pt.disk.wal[k].sample.id)
    requires AllDisksKept(since, prev.out.trail)
    ensures var r := ReplayOne(cfg, prev, pt.disk.wal[k]);
            && r.out.err.None? && AllDisksKept(since, r.out.trail)
            && Between(pt.disk, s + LogPins([pt.disk.wal[k]]), r.out.end)
  {
    hide Tracking, Reinsert, NameRecord, IsDurable, Mark, Between, DiskKept, HasId, LogPins, SavedPins, CrashOk;
    ResumeTurn(cfg, pt, un, k, prev);
    var at, w := prev.out.end, pt.disk.wal[k];
    BetweenNamed(since, pt.disk, s, at, k);
    var named := at.(mem := at.mem.(cat := NameRecord(at.mem.cat, w).value));
    var t := s + LogPins([w]);
    NameTracks(cfg, pt, un, k, at, named.mem.cat);
    CoveredRecord(cfg, pt, un, k);
    var mark := MarkOf(prev.marks, at.disk, cfg.part(w.sample.ts));
    assert mark == Mark(FramesIn(pt.disk, cfg.part(w.sample.ts)));
    if !IsDurable(w.sample.ts, mark) {
      BetweenReinsert(since, cfg, pt, un, k, named, t);
      AllDisksAppend(since, prev.out.trail, Reinsert(cfg, named, w.sample).trail);
    }
  }

  lemma AllDisksAppend(since: set<Pin>, a: seq<Point>, b: seq<Point>)
    requires AllDisksKept(since, a) && AllDisksKept(since, b)
    ensures AllDisksKept(since, a + b)
  {
    hide DiskKept;
  }

  lemma LogPinsPrefix(ws: seq<Logged>, k: nat)
    requires k < |ws|
    ensures LogPins(ws[..k + 1]) == LogPins(ws[..k]) + LogPins([ws[k]])
  {
    assert ws[..k + 1] == ws[..k] + [ws[k]];
    assert forall x :: x in ws[..k + 1] <==> x in ws[..k] || x in [ws[k]];
  }

  lemma {:induction false} ReplayKeeps(since: set<Pin>, cfg: Config, pt: Point, un: multiset<Sample>, c: Registry, k: nat)
    requires Inv(cfg, pt, un) && k <= |pt.disk.wal| && Resolves(c, pt.disk.wal)
    requires DiskKept(since, pt.disk) && Pinning(c, SavedPins(pt.disk.saved)) && !c.dirty
    ensures var out := Replay(cfg, pt.disk, c, pt.disk.wal[..k]).out;
            && out.err.None? && AllDisksKept(since, out.trail)
            && Between(pt.disk, SavedPins(pt.disk.saved) + LogPins(pt.disk.wal[..k]), out.end)
  {
    hide Inv, ReplayOne, Tracking, Resuming, NeverSealed, Between, DiskKept, AllDisksKept, HasId;
    var saved := SavedPins(pt.disk.saved);
    if k == 0 {
      BetweenStart(since, pt.disk, c);
    } else {
      assert pt.disk.wal[..k][..k - 1] == pt.disk.wal[..k - 1];
      ReplayKeeps(since, cfg, pt, un, c, k - 1);
      var prev := Replay(cfg, pt.disk, c, pt.disk.wal[..k - 1]);
      var w, s := pt.disk.wal[k - 1], saved + LogPins(pt.disk.wal[..k - 1]);
      LogPinsPrefix(pt.disk.wal, k - 1);
      ReplayTracks(cfg, pt, un, c, k - 1);
      PinsGive(c);
      IdStays(saved, LogPins(pt.disk.wal[..k - 1]), w.sample.id);
      hide Linked, PinsOf, LogPins, SavedPins;
      BetweenTurn(since, cfg, pt, un, k - 1, prev, s);
      assert s + LogPins([w]) == saved + LogPins(pt.disk.wal[..k]);
    }
  }

  lemma BetweenStart(since: set<Pin>, d: Disk, c: Registry)
    requires DiskKept(since, d) && Pinning(c, SavedPins(d.saved)) && !c.dirty
    ensures Between(d, SavedPins(d.saved) + LogPins([]), Point(d, Mem(c, map[], {})))
    ensures AllDisksKept(since, [])
  {
    hide GoodPin, GapFree, Agree, Linked, PinsOf;
    assert LogPins([]) == {};
    assert SavedPins(d.saved) + {} == SavedPins(d.saved);
  }

  lemma BetweenEnds(since: set<Pin>, d: Disk, at: Point)
    requires DiskKept(since, d) && Between(d, DiskPins(d), at)
    ensures Kept(since, at)
  {
    PinnedIsSavable(since, d, DiskPins(d), at.mem.cat);
    NumberedIffGapFree(at.mem.cat);
    hide GapFree, Agree, GoodPin, Loadable, Savable, Linked, PinsOf, SavedPins, LogPins;
    assert DiskPins(at.disk) == DiskPins(d);
  }

  /**
   Files that pin ids 1..n open exactly when catalog.json lists every metric of which the log holds a nameless record;
   every write of the replay keeps them so, and the registry then pins what they do.
   */
  lemma ReopenKeeps(since: set<Pin>, cfg: Config, d: Disk)
    requires Sound(cfg, d) && cfg.walEnabled && DiskKept(since, d)
    ensures var out := Reopen(cfg, d);
            && (out.err.None? <==> Resolved(d))
            && (if out.err.None? then Kept(since, out.end) else out.end.disk == d)
            && AllDisksKept(since, out.trail)
  {
    hide Inv, Replay, Load, Resolves, Resolved, DiskKept, Between, AllDisksKept, Linked, PinsOf, Kept;
    LoadsIff(d.saved);
    KeptLoads(since, d);
    var c := Load(d.saved).value;
    ResolvesIff(d);
    NothingWritten(since);
    if Resolves(c, d.wal) {
      var pt: Point, un: multiset<Sample> :| pt.disk == d && Inv(cfg, pt, un);
      ReplayKeeps(since, cfg, pt, un, c, |d.wal|);
      assert d.wal[..|d.wal|] == d.wal;
      BetweenEnds(since, d, Reopen(cfg, d).end);
    }
  }

  lemma NothingWritten(since: set<Pin>)
    ensures AllDisksKept(since, [])
  {
  }

  lemma KeptLoads(since: set<Pin>, d: Disk)
    requires DiskKept(since, d)
    ensures Loadable(d.saved)
  {
  }

  // ---------------------------------------------------------------- runs

  ghost predicate RecordedStep(cfg: Config, s: State, l: Label) {
    s.Up? && (l.Exec? || l.Crash?) ==> Recorded(cfg, s.at, l.op)
  }

  /** In every step the name is valid UTF-8, and the first sample of a metric goes to the log. */
  ghost predicate RecordedRun(cfg: Config, ss: seq<State>, ls: seq<Label>) {
    Run(cfg, ss, ls) && forall i :: 0 <= i < |ls| ==> RecordedStep(cfg, ss[i], ls[i])
  }

  /** The pins of the files. */
  ghost function FilePins(s: State): set<Pin> {
    match s case Up(at, _) => DiskPins(at.disk) case Down(d) => DiskPins(d)
  }

  ghost predicate StateKept(since: set<Pin>, s: State) {
    match s case Up(at, _) => Kept(since, at) case Down(d) => DiskKept(since, d)
  }

  lemma CutKept(since: set<Pin>, d: Disk, trail: seq<Point>, k: nat)
    requires DiskKept(since, d) && AllDisksKept(since, trail) && k <= |trail|
    ensures DiskKept(since, CutAt(d, trail, k))
  {
    hide DiskKept;
  }

  lemma StepKeeps(since: set<Pin>, cfg: Config, s: State, l: Label, s': State)
    requires cfg.walEnabled && Next(cfg, s, l, s') && RecordedStep(cfg, s, l) && StateKept(since, s)
    requires s.Down? ==> Sound(cfg, s.disk)
    ensures StateKept(since, s')
  {
    hide Kept, DiskKept, AllKept, AllDisksKept, Perform, Reopen, Recorded, Sound, CutAt, Bare, Resolved;
    match l
    case Exec(op) => PerformKeeps(since, cfg, s.at, op);
    case Crash(op, k) =>
      PerformKeeps(since, cfg, s.at, op);
      AllKeptOnDisk(since, Perform(cfg, s.at, op).trail);
      KeptOnDisk(since, s.at);
      CutKept(since, s.at.disk, Perform(cfg, s.at, op).trail, k);
    case Restart => ReopenKeeps(since, cfg, s.disk);
    case CrashInReplay(k) =>
      ReopenKeeps(since, cfg, s.disk);
      CutKept(since, s.disk, Reopen(cfg, s.disk).trail, k);
  }

  lemma FreshKept()
    ensures StateKept({}, FRESH)
  {
    assert SavedPins([]) == {} && LogPins([]) == {};
  }

  lemma {:induction false} RunKeeps(cfg: Config, ss: seq<State>, ls: seq<Label>, i: nat, j: nat)
    requires cfg.walEnabled && RecordedRun(cfg, ss, ls) && i <= j < |ss|
    ensures StateKept(FilePins(ss[i]), ss[j])
    decreases j, j - i
  {
    hide StateKept, Next, RecordedStep, Sound, Safe, FilePins;
    if i < j {
      RunKeeps(cfg, ss, ls, i, j - 1);
      StepKeepsOf(FilePins(ss[i]), cfg, ss, ls, j - 1);
    } else if i > 0 {
      RunKeeps(cfg, ss, ls, i - 1, i - 1);
      StepKeepsOf(FilePins(ss[i - 1]), cfg, ss, ls, i - 1);
      KeptOfItself(FilePins(ss[i - 1]), ss[i]);
    } else {
      FreshKept();
      KeptOfItself({}, ss[0]);
    }
  }

  lemma StepKeepsOf(since: set<Pin>, cfg: Config, ss: seq<State>, ls: seq<Label>, i: nat)
    requires cfg.walEnabled && RecordedRun(cfg, ss, ls) && i < |ls| && StateKept(since, ss[i])
    ensures StateKept(since, ss[i + 1])
  {
    hide StateKept, Sound;
    if ss[i].Down? {
      RestartIsSound(cfg, ss, ls, i);
    }
    hide Next, RecordedStep;
    StepKeeps(since, cfg, ss[i], ls[i], ss[i + 1]);
  }

  lemma KeptOfItself(since: set<Pin>, s: State)
    requires StateKept(since, s)
    ensures StateKept(FilePins(s), s)
  {
    hide Numbered, Savable, Loadable, PinsOf, SavedPins, LogPins, Agree, GapFree, GoodPin;
  }

  /**
   In a recorded run, at every crash point: the files open again exactly when catalog.json lists every metric of which
   the log holds a nameless record, and the registry then has exactly the metrics they pin, with the ids 1..n.
   */
  lemma RegistryRecovers(cfg: Config, ss: seq<State>, ls: seq<Label>, i: nat)
    requires cfg.walEnabled && RecordedRun(cfg, ss, ls) && i < |ss| && ss[i].Down?
    ensures var out := Reopen(cfg, ss[i].disk);
            && (out.err.None? <==> Resolved(ss[i].disk))
            && (out.err.None? ==> Numbered(out.end.mem.cat) && PinsOf(out.end.mem.cat) == DiskPins(ss[i].disk))
  {
    hide Run, RecordedStep, Sound, Reopen, Resolved, Numbered, PinsOf, Agree, GapFree, Loadable, Linked;
    RunKeeps(cfg, ss, ls, i, i);
    RestartIsSound(cfg, ss, ls, i);
    ReopenKeeps(FilePins(ss[i]), cfg, ss[i].disk);
    ReopensIff(cfg, ss[i].disk);
  }

  /** In a recorded run a metric keeps its id and its type for ever, over every crash, and no other metric gets the id. */
  lemma PinsAreForever(cfg: Config, ss: seq<State>, ls: seq<Label>, i: nat, j: nat)
    requires cfg.walEnabled && RecordedRun(cfg, ss, ls) && i <= j < |ss|
    ensures FilePins(ss[i]) <= FilePins(ss[j]) && Agree(FilePins(ss[j])) && GapFree(FilePins(ss[j]))
    ensures ss[j].Up? ==> Numbered(ss[j].at.mem.cat) && PinsOf(ss[j].at.mem.cat) == FilePins(ss[j])
  {
    hide Run, RecordedStep;
    RunKeeps(cfg, ss, ls, i, j);
    if ss[j].Up? {
      KeptOnDisk(FilePins(ss[i]), ss[j].at);
    }
    hide Loadable, GoodPin, Agree, GapFree, Savable, Numbered, PinsOf, SavedPins, LogPins;
  }
}
