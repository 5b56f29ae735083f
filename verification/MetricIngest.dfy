/**
 One operation of metric ingest: what it stores, and what each of its durable writes keeps.
 */
module MetricIngest {
  import opened Prelude
  import opened Bytes
  import opened Names
  import opened Samples
  import opened MetricRegistry
  import opened MetricEngine
  import opened MetricInvariant

  // ---------------------------------------------------------------- one operation

  function Added(cfg: Config, s: Option<Sample>, p: Part): Page {
    if s.Some? && cfg.part(s.value.ts) == p then [s.value] else []
  }

  /** pt keeps the invariant and stores what `from` stored, and s after it. */
  ghost predicate Carries(cfg: Config, from: Point, s: Option<Sample>, un: multiset<Sample>, pt: Point) {
    && Inv(cfg, pt, un)
    && (forall p :: Stored(pt, p) == Stored(from, p) + Added(cfg, s, p))
    && from.mem.sealed <= pt.mem.sealed
  }

  /** The same metrics, whether or not they are saved. */
  ghost predicate SameNames(c: Registry, d: Registry) {
    d.metrics == c.metrics && d.names == c.names
  }

  /** Every point of the trail carries what `from` stored, with or without s. */
  ghost predicate TrailCarries(cfg: Config, from: Point, s: Option<Sample>, un: multiset<Sample>, trail: seq<Point>) {
    forall k :: 0 <= k < |trail| ==> Carries(cfg, from, None, un, trail[k]) || Carries(cfg, from, s, un, trail[k])
  }

  lemma CarriesSame(cfg: Config, from: Point, s: Option<Sample>, un: multiset<Sample>, pt: Point, next: Point)
    requires Carries(cfg, from, s, un, pt) && Inv(cfg, next, un) && Same(pt, next)
    ensures Carries(cfg, from, s, un, next)
  {
    hide Inv, Stored;
  }

  lemma CarriesStart(cfg: Config, at: Point, un: multiset<Sample>)
    requires Inv(cfg, at, un)
    ensures Carries(cfg, at, None, un, at)
  {
    hide Inv, Stored;
  }

  lemma CarriesFlush(cfg: Config, from: Point, s: Option<Sample>, un: multiset<Sample>, pt: Point, q: Part)
    requires Carries(cfg, from, s, un, pt)
    ensures Carries(cfg, from, s, un, FlushDay(pt, q))
  {
    FlushKeeps(cfg, pt, un, q);
    CarriesSame(cfg, from, s, un, pt, FlushDay(pt, q));
  }

  lemma CarriesSave(cfg: Config, from: Point, s: Option<Sample>, un: multiset<Sample>, pt: Point)
    requires Carries(cfg, from, s, un, pt)
    ensures Carries(cfg, from, s, un, SaveIfDirty(pt)) && TrailCarries(cfg, from, s, un, SaveTrail(pt))
  {
    hide Inv, Same, Stored, Save;
    SaveKeeps(cfg, pt, un);
    CarriesSame(cfg, from, s, un, pt, SaveIfDirty(pt));
  }

  /** A page flush, with the registry save that may follow it. */
  lemma CarriesWrite(cfg: Config, from: Point, s: Option<Sample>, un: multiset<Sample>, pt: Point, q: Part)
    requires Carries(cfg, from, s, un, pt)
    ensures Carries(cfg, from, s, un, WriteDay(cfg, pt, q)) && TrailCarries(cfg, from, s, un, WriteTrail(cfg, pt, q))
    ensures SameNames(pt.mem.cat, WriteDay(cfg, pt, q).mem.cat)
    ensures WriteDay(cfg, pt, q).mem.open == pt.mem.open - {q} && WriteDay(cfg, pt, q).mem.sealed == pt.mem.sealed
  {
    hide Carries, SaveTrail, Listing;
    CarriesFlush(cfg, from, s, un, pt, q);
    CarriesSave(cfg, from, s, un, FlushDay(pt, q));
  }

  lemma CarriesReset(cfg: Config, from: Point, s: Option<Sample>, un: multiset<Sample>, pt: Point)
    requires Carries(cfg, from, s, un, pt)
    ensures Carries(cfg, from, s, un, MaybeReset(cfg, pt)) && TrailCarries(cfg, from, s, un, ResetTrail(cfg, pt))
    ensures SameNames(pt.mem.cat, MaybeReset(cfg, pt).mem.cat)
    ensures MaybeReset(cfg, pt).mem.open == pt.mem.open && MaybeReset(cfg, pt).mem.sealed == pt.mem.sealed
  {
    CarriesSave(cfg, from, s, un, pt);
    ResetKeeps(cfg, pt, un);
    CarriesSame(cfg, from, s, un, pt, MaybeReset(cfg, pt));
    hide Carries, SaveTrail, Listing;
  }

  lemma SealCarries(cfg: Config, from: Point, un: multiset<Sample>, at: Point, q: Part)
    requires Carries(cfg, from, None, un, at)
    ensures var out := SealDay(cfg, at, q);
            && Carries(cfg, from, None, un, out.end) && TrailCarries(cfg, from, None, un, out.trail)
            && out.end.mem.open == at.mem.open - {q} && out.end.mem.sealed == at.mem.sealed + {q}
            && SameNames(at.mem.cat, out.end.mem.cat) && out == Done(out.end, out.trail)
  {
    hide Carries, WriteDay, WriteTrail, MaybeReset, ResetTrail;
    var flushed := WriteDay(cfg, at, q);
    var reset := MaybeReset(cfg, flushed);
    CarriesWrite(cfg, from, None, un, at, q);
    CarriesReset(cfg, from, None, un, flushed);
    SealMarkCarries(cfg, from, un, reset, q);
  }

  lemma SealMarkCarries(cfg: Config, from: Point, un: multiset<Sample>, at: Point, q: Part)
    requires Carries(cfg, from, None, un, at) && q !in at.mem.open
    ensures Carries(cfg, from, None, un, at.(mem := at.mem.(sealed := at.mem.sealed + {q})))
  {
    hide Inv;
    MarkSealedKeeps(cfg, at, un, q);
    CarriesSame(cfg, from, None, un, at, at.(mem := at.mem.(sealed := at.mem.sealed + {q})));
  }

  lemma OpenCarries(cfg: Config, from: Point, un: multiset<Sample>, at: Point, p: Part)
    requires Carries(cfg, from, None, un, at)
    requires p !in at.mem.open && p !in at.mem.sealed && |at.mem.open| < cfg.MaxActive()
    ensures Carries(cfg, from, None, un, at.(mem := at.mem.(open := at.mem.open[p := None])))
  {
    hide Inv;
    OpenKeeps(cfg, at, un, p);
    CarriesSame(cfg, from, None, un, at, at.(mem := at.mem.(open := at.mem.open[p := None])));
  }

  lemma CarriesDays(cfg: Config, from: Point, s: Option<Sample>, un: multiset<Sample>, pt: Point)
    requires Carries(cfg, from, s, un, pt)
    ensures Inv(cfg, pt, un) && DaysOk(cfg, pt.mem)
  {
  }

  /** Opening a day seals at most the oldest, keeps within the setting, and refuses exactly the sealed days. */
  lemma EnsureDaySound(cfg: Config, at: Point, un: multiset<Sample>, p: Part)
    requires Inv(cfg, at, un)
    ensures var out := EnsureDay(cfg, at, p);
            && Carries(cfg, at, None, un, out.end) && TrailCarries(cfg, at, None, un, out.trail)
            && out.put == None && out.logged == None && SameNames(at.mem.cat, out.end.mem.cat)
            && (out.err.Some? <==> p in at.mem.sealed)
            && (out.err.None? ==> p in out.end.mem.open)
            && OpenIn(out.end.mem, p) == OpenIn(at.mem, p)
  {
    hide Carries, Inv, SealDay;
    CarriesStart(cfg, at, un);
    CarriesDays(cfg, at, None, un, at);
    if p !in at.mem.sealed && p !in at.mem.open {
      if |at.mem.open| >= cfg.MaxActive() {
        var q := Oldest(at.mem.open);
        FewerKeys(at.mem.open, q);
        SealCarries(cfg, at, un, at, q);
        OpenCarries(cfg, at, un, SealDay(cfg, at, q).end, p);
      } else {
        OpenCarries(cfg, at, un, at, p);
      }
    }
  }

  lemma {:induction false} FlushFullSound(
    cfg: Config, from: Point, s: Option<Sample>, un: multiset<Sample>, at: Point, today: Part, order: seq<Part>, aged: set<Part>)
    requires Carries(cfg, from, s, un, at)
    ensures var out := FlushFull(cfg, at, today, order, aged);
            && Carries(cfg, from, s, un, out.end) && TrailCarries(cfg, from, s, un, out.trail)
            && out.err == None && SameNames(at.mem.cat, out.end.mem.cat)
  {
    hide Carries, Full, WriteDay, WriteTrail;
    if order != [] {
      var init, p := order[..|order| - 1], order[|order| - 1];
      FlushFullSound(cfg, from, s, un, at, today, init, aged);
      CarriesWrite(cfg, from, s, un, FlushFull(cfg, at, today, init, aged).end, p);
    }
  }

  lemma AfterPutSound(cfg: Config, from: Point, s: Option<Sample>, un: multiset<Sample>, put: Point, q: Request)
    requires Carries(cfg, from, s, un, put)
    ensures var out := AfterPut(cfg, put, q);
            && Carries(cfg, from, s, un, out.end) && TrailCarries(cfg, from, s, un, out.trail)
            && out.err == None && SameNames(put.mem.cat, out.end.mem.cat)
  {
    hide Carries, Full, WriteDay, WriteTrail, MaybeReset, ResetTrail;
    var p := cfg.part(q.ts);
    FlushFullSound(cfg, from, s, un, put, p, q.order, q.aged);
    var others := FlushFull(cfg, put, p, q.order, q.aged);
    CarriesWrite(cfg, from, s, un, others.end, p);
    CarriesReset(cfg, from, s, un, WriteDay(cfg, others.end, p));
  }

  // ---------------------------------------------------------------- a sample

  lemma CarriesMore(cfg: Config, from: Point, s: Option<Sample>, un: multiset<Sample>, un': multiset<Sample>, pt: Point)
    requires Carries(cfg, from, s, un, pt) && un <= un'
    ensures Carries(cfg, from, s, un', pt)
  {
    hide FilesOk, OpenOk, DaysOk, Covered, Stored;
    forall p ensures Backed(cfg, pt, p, un') {
      assert Backed(cfg, pt, p, un);
    }
  }

  lemma TrailMore(cfg: Config, from: Point, s: Option<Sample>, un: multiset<Sample>, un': multiset<Sample>, trail: seq<Point>)
    requires TrailCarries(cfg, from, None, un, trail) && un <= un'
    ensures TrailCarries(cfg, from, s, un', trail)
  {
    hide Carries;
    forall k | 0 <= k < |trail| ensures Carries(cfg, from, None, un', trail[k]) {
      CarriesMore(cfg, from, None, un, un', trail[k]);
    }
  }

  lemma CarriesPut(cfg: Config, from: Point, un: multiset<Sample>, at: Point, w: Option<Logged>, s: Sample)
    requires Carries(cfg, from, None, un, at) && s.ts >= 0 && !Refuses(at.mem, cfg.part(s.ts), s.ts)
    requires var p := cfg.part(s.ts);
             p in at.mem.open || (|at.mem.open| < cfg.MaxActive() && p !in at.mem.sealed)
    requires w.Some? ==> w.value.sample == s
    ensures Carries(cfg, from, Some(s), un + Unlogged(w, s), Put(AppendLog(at, w), cfg.part(s.ts), s))
  {
    hide Inv, Refuses, Stored, Put, AppendLog, Unlogged;
    PutKeeps(cfg, at, un, w, s);
  }

  lemma CarriesPhantom(cfg: Config, from: Point, un: multiset<Sample>, at: Point, w: Option<Logged>)
    requires Carries(cfg, from, None, un, at)
    requires w.Some? ==> w.value.sample.ts >= 0 && Refuses(at.mem, cfg.part(w.value.sample.ts), w.value.sample.ts)
    ensures Carries(cfg, from, None, un, AppendLog(at, w))
  {
    hide Inv, Stored, Refuses;
    PhantomKeeps(cfg, at, un, w);
    CarriesSame(cfg, from, None, un, at, AppendLog(at, w));
  }

  ghost predicate Good(cfg: Config, from: Point, un: multiset<Sample>, out: Outcome) {
    var un' := if out.put.Some? then un + Unlogged(out.logged, out.put.value) else un;
    && Carries(cfg, from, out.put, un', out.end)
    && TrailCarries(cfg, from, out.put, un', out.trail)
    && (out.err.None? <==> out.put.Some?)
  }

  /** A day just flushed can be put on again: the flush made room for it. */
  lemma RoomAfterFlush(cfg: Config, from: Point, un: multiset<Sample>, at: Point, p: Part)
    requires Carries(cfg, from, None, un, at) && p in at.mem.open
    ensures var f := WriteDay(cfg, at, p);
            |f.mem.open| < cfg.MaxActive() && p !in f.mem.sealed && OpenIn(f.mem, p) == []
  {
    hide FilesOk, OpenOk, Covered, Backed, Stored, Listing;
    FewerKeys(at.mem.open, p);
  }

  lemma LogAndPutSound(cfg: Config, from: Point, un: multiset<Sample>, at: Point, w: Option<Logged>, s: Sample, q: Request)
    requires Carries(cfg, from, None, un, at) && s.ts >= 0 && cfg.part(s.ts) in at.mem.open
    requires w.Some? ==> w.value.sample == s
    ensures Good(cfg, from, un, LogAndPut(cfg, at, w, s, q))
    ensures LogAndPut(cfg, at, w, s, q).logged == w
    ensures LogAndPut(cfg, at, w, s, q).put in {None, Some(s)}
  {
    hide Carries, Put, AppendLog, AfterPut, Unlogged, WriteDay, WriteTrail;
    var p := cfg.part(s.ts);
    var un' := un + Unlogged(w, s);
    if !Refuses(at.mem, p, s.ts) {
      hide Refuses;
      CarriesPut(cfg, from, un, at, w, s);
      AfterPutSound(cfg, from, Some(s), un', Put(AppendLog(at, w), p, s), q);
    } else {
      var logged := AppendLog(at, w);
      CarriesPhantom(cfg, from, un, at, w);
      if q.retry {
        AppendKeepsMem(at, w);
        CarriesWrite(cfg, from, None, un, logged, p);
        WriteKeepsLog(cfg, logged, p);
        RoomAfterFlush(cfg, from, un, logged, p);
        RetryPut(cfg, from, un, WriteDay(cfg, logged, p), w, s);
        AfterPutSound(cfg, from, Some(s), un', Put(WriteDay(cfg, logged, p), p, s), q);
        CarriesMore(cfg, from, None, un, un', logged);
        TrailMore(cfg, from, Some(s), un, un', WriteTrail(cfg, logged, p));
      }
    }
  }

  lemma AppendKeepsMem(at: Point, w: Option<Logged>)
    ensures AppendLog(at, w).mem == at.mem
    ensures w.Some? ==> w.value in AppendLog(at, w).disk.wal
  {
  }

  lemma WriteKeepsLog(cfg: Config, at: Point, p: Part)
    ensures WriteDay(cfg, at, p).disk.wal == at.disk.wal
  {
  }

  lemma RetryPut(cfg: Config, from: Point, un: multiset<Sample>, at: Point, w: Option<Logged>, s: Sample)
    requires Carries(cfg, from, None, un, at) && s.ts >= 0 && OpenIn(at.mem, cfg.part(s.ts)) == []
    requires |at.mem.open| < cfg.MaxActive() && cfg.part(s.ts) !in at.mem.sealed
    requires w.Some? ==> w.value.sample == s && w.value in at.disk.wal
    ensures Carries(cfg, from, Some(s), un + Unlogged(w, s), Put(at, cfg.part(s.ts), s))
  {
    hide Inv, Refuses, Stored, Put, Unlogged;
    RetryKeeps(cfg, at, un, w, s);
  }

  lemma CarriesRename(cfg: Config, from: Point, un: multiset<Sample>, at: Point, c: Registry)
    requires Carries(cfg, from, None, un, at)
    ensures Carries(cfg, from, None, un, at.(mem := at.mem.(cat := c)))
  {
    hide Inv, Stored;
    RelabelKeeps(cfg, at, un, at.disk.saved, c);
    CarriesSame(cfg, from, None, un, at, at.(mem := at.mem.(cat := c)));
  }

  lemma GoodAfter(cfg: Config, from: Point, un: multiset<Sample>, ready: seq<Point>, out: Outcome)
    requires TrailCarries(cfg, from, None, un, ready) && Good(cfg, from, un, out)
    ensures Good(cfg, from, un, out.(trail := ready + out.trail))
  {
    hide Carries;
    var un' := if out.put.Some? then un + Unlogged(out.logged, out.put.value) else un;
    TrailMore(cfg, from, out.put, un, un', ready);
  }

  /**
   A call of addParsedSample stores its sample once, after what its partition already held, or changes
   nothing that is stored; and every durable write in between keeps the invariant.
   */
  lemma AddSampleSound(cfg: Config, at: Point, un: multiset<Sample>, q: Request)
    requires Inv(cfg, at, un) && q.ts >= 0
    ensures Good(cfg, at, un, AddSample(cfg, at, q))
    ensures AddSample(cfg, at, q).put.Some? ==> cfg.part(q.ts) !in at.mem.sealed
  {
    hide Carries, Inv, EnsureDay, GetId, LogAndPut, EntryFor;
    CarriesStart(cfg, at, un);
    var known := q.name in at.mem.cat.metrics;
    var p := cfg.part(q.ts);
    EnsureDaySound(cfg, at, un, p);
    var ready := EnsureDay(cfg, at, p);
    if ready.err.None? {
      var (c, given) := GetId(ready.end.mem.cat, q.name, q.valueType);
      var named := ready.end.(mem := ready.end.mem.(cat := c));
      CarriesRename(cfg, at, un, ready.end, c);
      if given.Ok? {
        var s := Sample(given.value, q.ts, q.raw);
        var w := EntryFor(cfg, known, q, given.value);
        EntryIsSample(cfg, known, q, given.value);
        LogAndPutSound(cfg, at, un, named, w, s, q);
        GoodAfter(cfg, at, un, ready.trail, LogAndPut(cfg, named, w, s, q));
      }
    }
  }

  lemma EntryIsSample(cfg: Config, known: bool, q: Request, id: nat)
    ensures var w := EntryFor(cfg, known, q, id);
            w.Some? ==> w.value.sample == Sample(id, q.ts, q.raw)
  {
  }

  lemma {:induction false} FlushDaysSound(cfg: Config, at: Point, un: multiset<Sample>, order: seq<Part>)
    requires Inv(cfg, at, un)
    ensures var out := FlushDays(cfg, at, order);
            && Carries(cfg, at, None, un, out.end) && TrailCarries(cfg, at, None, un, out.trail)
            && out.err == None && out.put == None && out.logged == None && SameNames(at.mem.cat, out.end.mem.cat)
  {
    hide Carries, Inv, WriteDay, WriteTrail;
    if order == [] {
      CarriesStart(cfg, at, un);
    } else {
      var init, p := order[..|order| - 1], order[|order| - 1];
      FlushDaysSound(cfg, at, un, init);
      CarriesWrite(cfg, at, None, un, FlushDays(cfg, at, init).end, p);
    }
  }

  lemma FlushAllSound(cfg: Config, at: Point, un: multiset<Sample>, order: seq<Part>)
    requires Inv(cfg, at, un)
    ensures var out := FlushAll(cfg, at, order);
            && Carries(cfg, at, None, un, out.end) && TrailCarries(cfg, at, None, un, out.trail)
            && out.put == None && out.logged == None && SameNames(at.mem.cat, out.end.mem.cat)
  {
    hide Carries, Inv, FlushDays, MaybeReset, ResetTrail, SaveTrail, Listing;
    FlushDaysSound(cfg, at, un, order);
    var flushed := FlushDays(cfg, at, order).end;
    CarriesReset(cfg, at, None, un, flushed);
    CarriesSave(cfg, at, None, un, MaybeReset(cfg, flushed));
  }
}
