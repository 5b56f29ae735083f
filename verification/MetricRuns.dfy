/**
 Whole runs of the metric layer: what one process keeps from start to end, and what crashes between any two
 durable writes, and replays cut short by further crashes, leave behind.
 */
module MetricRuns {
  import opened Prelude
  import opened Bytes
  import opened Names
  import opened Samples
  import opened MetricRegistry
  import opened MetricEngine
  import opened MetricInvariant
  import opened MetricIngest
  import opened MetricReplay

  datatype Op = Ingest(q: Request) | FlushOpen(order: seq<Part>)

  ghost function Perform(cfg: Config, at: Point, op: Op): (r: Outcome) {
    match op
    case Ingest(q) => AddSample(cfg, at, q)
    case FlushOpen(order) => FlushAll(cfg, at, order)
  }

  /** Times are not negative: the sentinel of the watermark takes -1. */
  predicate Timed(op: Op) {
    op.Ingest? ==> op.q.ts >= 0
  }

  lemma PerformSound(cfg: Config, at: Point, un: multiset<Sample>, op: Op)
    requires Inv(cfg, at, un) && Timed(op)
    ensures var out := Perform(cfg, at, op);
            && Carries(cfg, at, out.put, un + Bare(out), out.end)
            && TrailCarries(cfg, at, out.put, un + Bare(out), out.trail)
            && (out.put.Some? ==> cfg.part(out.put.value.ts) !in at.mem.sealed)
  {
    hide Carries, AddSample, FlushAll;
    match op
    case Ingest(q) =>
      AddSampleSound(cfg, at, un, q);
      AddSampleCat(cfg, at, q);
      var out := AddSample(cfg, at, q);
      assert out.put.None? ==> un + Bare(out) == un;
    case FlushOpen(order) =>
      FlushAllSound(cfg, at, un, order);
      assert un + Bare(FlushAll(cfg, at, order)) == un;
  }

  /** The sample an operation put on a page without logging it. */
  ghost function Bare(out: Outcome): multiset<Sample> {
    if out.put.Some? then Unlogged(out.logged, out.put.value) else multiset{}
  }

  // ---------------------------------------------------------------- the registry of one process

  function LastOf(c: Registry, id: nat): Option<Timestamp> {
    if id in c.names && c.names[id] in c.metrics then c.metrics[c.names[id]].last else None
  }

  /** No metric's last time goes back. */
  ghost predicate LastGrows(c: Registry, d: Registry) {
    forall id :: LastOf(c, id).Some? ==> LastOf(d, id).Some? && LastOf(d, id).value >= LastOf(c, id).value
  }

  /** A metric registered under the next id leaves ids numbered. */
  lemma NextIdNumbered(c: Registry, name: Name, vt: byte)
    requires Numbered(c) && name !in c.metrics
    ensures var id := |c.metrics| + 1;
            Numbered(Register(c, name, id, vt)) && id !in c.names
  {
    hide PinsOf;
    var id := |c.metrics| + 1;
    var d := Register(c, name, id, vt);
    RegisterPins(c, name, id, vt);
    MapGrows(c.metrics, name, Metric(id, vt, None));
    hide Linked;
    forall i ensures i in d.names <==> 1 <= i <= |d.metrics| {
      assert i in d.names <==> i in c.names || i == id;
    }
  }

  /** Saving changes no answer of the registry. */
  lemma SameAnswers(c: Registry, d: Registry, name: Name, vt: byte)
    requires SameNames(c, d)
    ensures GetId(c, name, vt).1 == GetId(d, name, vt).1 && SameNames(GetId(c, name, vt).0, GetId(d, name, vt).0)
    ensures Numbered(c) ==> Numbered(d)
    ensures forall id :: LastOf(c, id) == LastOf(d, id)
  {
  }

  lemma SameNotes(c: Registry, d: Registry, id: nat, ts: Timestamp)
    requires SameNames(c, d)
    ensures SameNames(NoteLast(c, id, ts), NoteLast(d, id, ts))
  {
  }

  lemma GetIdKeeps(c: Registry, name: Name, vt: byte)
    requires Numbered(c)
    ensures var (d, r) := GetId(c, name, vt);
            && Numbered(d) && LastGrows(c, d)
            && (r.Ok? ==> r.value in d.names && d.names[r.value] == name)
            && (r.Ok? ==> LastOf(d, r.value) == if name in c.metrics then c.metrics[name].last else None)
            && (r.Ok? ==> LastOf(c, r.value) == LastOf(d, r.value))
  {
    if name !in c.metrics {
      NextIdNumbered(c, name, vt);
    }
  }

  lemma NoteLastKeeps(c: Registry, id: nat, ts: Timestamp)
    requires Numbered(c) && id in c.names
    ensures var d := NoteLast(c, id, ts);
            && Numbered(d) && LastGrows(c, d) && LastOf(d, id).Some? && LastOf(d, id).value >= ts
  {
    var d := NoteLast(c, id, ts);
    assert d.metrics.Keys == c.metrics.Keys;
    assert |d.metrics.Keys| == |d.metrics| && |c.metrics.Keys| == |c.metrics|;
  }

  lemma {:induction false} FlushFullCat(cfg: Config, at: Point, today: Part, order: seq<Part>, aged: set<Part>)
    ensures var out := FlushFull(cfg, at, today, order, aged);
            SameNames(at.mem.cat, out.end.mem.cat) && out.err == None
  {
    hide Full, WriteDay, WriteTrail;
    if order != [] {
      FlushFullCat(cfg, at, today, order[..|order| - 1], aged);
      WriteStores(cfg, FlushFull(cfg, at, today, order[..|order| - 1], aged).end, order[|order| - 1]);
    }
  }

  lemma AfterPutCat(cfg: Config, put: Point, q: Request)
    ensures SameNames(put.mem.cat, AfterPut(cfg, put, q).end.mem.cat) && AfterPut(cfg, put, q).err == None
  {
    hide Full, FlushFull, WriteDay, MaybeReset;
    var p := cfg.part(q.ts);
    FlushFullCat(cfg, put, p, q.order, q.aged);
    var others := FlushFull(cfg, put, p, q.order, q.aged).end;
    WriteStores(cfg, others, p);
    ResetStores(cfg, WriteDay(cfg, others, p));
  }

  lemma LogAndPutCat(cfg: Config, at: Point, w: Option<Logged>, s: Sample, q: Request)
    ensures var out := LogAndPut(cfg, at, w, s, q);
            SameNames(if out.put.Some? then NoteLast(at.mem.cat, s.id, s.ts) else at.mem.cat, out.end.mem.cat)
            && out.put in {None, Some(s)} && out.logged == w
            && (if out.put.None? then out.err == Some(OutOfOrder) && out.end == AppendLog(at, w) else out.err == None)
  {
    hide NoteLast, AfterPut, WriteDay;
    var p := cfg.part(s.ts);
    var logged := AppendLog(at, w);
    AfterPutCat(cfg, Put(logged, p, s), q);
    WriteStores(cfg, logged, p);
    SameNotes(logged.mem.cat, WriteDay(cfg, logged, p).mem.cat, s.id, s.ts);
    AfterPutCat(cfg, Put(WriteDay(cfg, logged, p), p, s), q);
  }

  /** What a call does to the registry, and which sample it can put. */
  lemma AddSampleCat(cfg: Config, at: Point, q: Request)
    ensures var out := AddSample(cfg, at, q);
            var (c, given) := GetId(at.mem.cat, q.name, q.valueType);
            && (out.put.None? ==> SameNames(at.mem.cat, out.end.mem.cat) || SameNames(c, out.end.mem.cat))
            && (out.put.Some? ==>
                  && given == Ok(out.put.value.id) && out.put.value == Sample(given.value, q.ts, q.raw)
                  && SameNames(NoteLast(c, given.value, q.ts), out.end.mem.cat)
                  && (q.name in at.mem.cat.metrics && at.mem.cat.metrics[q.name].last.Some? ==>
                        q.ts >= at.mem.cat.metrics[q.name].last.value))
  {
    hide EnsureDay, GetId, LogAndPut, NoteLast, EntryFor;
    EnsureStores(cfg, at, cfg.part(q.ts));
    EnsurePutsNothing(cfg, at, cfg.part(q.ts));
    var ready := EnsureDay(cfg, at, cfg.part(q.ts));
    SameAnswers(at.mem.cat, ready.end.mem.cat, q.name, q.valueType);
    var (c, given) := GetId(ready.end.mem.cat, q.name, q.valueType);
    if given.Ok? {
      var named := ready.end.(mem := ready.end.mem.(cat := c));
      var known := q.name in at.mem.cat.metrics;
      SameNotes(GetId(at.mem.cat, q.name, q.valueType).0, c, given.value, q.ts);
      LogAndPutCat(cfg, named, EntryFor(cfg, known, q, given.value), Sample(given.value, q.ts, q.raw), q);
    }
  }

  /** A sample is older than the last one its metric has. */
  predicate IsStale(c: Registry, q: Request) {
    q.name in c.metrics && c.metrics[q.name].last.Some? && q.ts < c.metrics[q.name].last.value
  }

  /** The registry has, or still takes, a metric of this name and type. */
  predicate Registers(c: Registry, name: Name, vt: byte) {
    if name in c.metrics then c.metrics[name].valueType == vt else |c.metrics| < MAX_METRICS
  }

  lemma OpeningKeepsPage(cfg: Config, at: Point, p: Part)
    ensures OpenIn(EnsureDay(cfg, at, p).end.mem, p) == OpenIn(at.mem, p)
    ensures EnsureDay(cfg, at, p).err.None? <==> p !in at.mem.sealed
  {
    hide WriteDay, MaybeReset;
    if p !in at.mem.sealed && p !in at.mem.open && |at.mem.open| >= cfg.MaxActive() {
      var o := Oldest(at.mem.open);
      WriteStores(cfg, at, o);
      ResetStores(cfg, WriteDay(cfg, at, o));
    }
  }

  /**
   Exactly which samples are accepted, by what a caller can look up before the call: not stale, of a day that is not
   sealed, of a metric the registry takes, and not before the end of its day's page unless the caller allows the
   retry. And exactly which calls reach the log: those that pass all but the last test, when the log is in use.
   */
  lemma AcceptedIff(cfg: Config, at: Point, q: Request)
    ensures var out, p := AddSample(cfg, at, q), cfg.part(q.ts);
            var known := !IsStale(at.mem.cat, q) && p !in at.mem.sealed && Registers(at.mem.cat, q.name, q.valueType);
            && (out.err.None? <==> out.put.Some?)
            && (out.put.Some? <==> known && (q.retry || !Refuses(at.mem, p, q.ts)))
            && (out.logged.Some? <==> known && UsesLog(cfg, q))
  {
    hide EnsureDay, LogAndPut, EntryFor;
    var p := cfg.part(q.ts);
    var ready := EnsureDay(cfg, at, p);
    EnsureStores(cfg, at, p);
    SameAnswers(at.mem.cat, ready.end.mem.cat, q.name, q.valueType);
    EnsurePutsNothing(cfg, at, p);
    OpeningKeepsPage(cfg, at, p);
    if !IsStale(at.mem.cat, q) && ready.err.None? {
      var (c, given) := GetId(ready.end.mem.cat, q.name, q.valueType);
      if given.Ok? {
        var named := ready.end.(mem := ready.end.mem.(cat := c));
        var known := q.name in at.mem.cat.metrics;
        var w, s := EntryFor(cfg, known, q, given.value), Sample(given.value, q.ts, q.raw);
        EntryIffLogs(cfg, known, q, given.value);
        LogAndPutCat(cfg, named, w, s, q);
        PutsUnlessRefused(cfg, named, w, s, q);
      }
    }
  }

  lemma EntryIffLogs(cfg: Config, known: bool, q: Request, id: nat)
    ensures EntryFor(cfg, known, q, id).Some? <==> UsesLog(cfg, q)
  {
  }

  lemma PutsUnlessRefused(cfg: Config, at: Point, w: Option<Logged>, s: Sample, q: Request)
    ensures LogAndPut(cfg, at, w, s, q).put.Some? <==> q.retry || !Refuses(at.mem, cfg.part(s.ts), s.ts)
  {
    hide AfterPut, WriteDay;
  }

  /**
   Opening a day seals at most one day, only when no more days may be open and then the one with the least key, whose
   page goes to its file; every other open day keeps its page, and no sealed day opens.
   */
  lemma OpeningSealsOldest(cfg: Config, at: Point, p: Part)
    ensures var out, m := EnsureDay(cfg, at, p), at.mem;
            var full := p !in m.sealed && p !in m.open && |m.open| >= cfg.MaxActive();
            && (out.err.None? ==> p in out.end.mem.open)
            && (forall d :: d != p && d in out.end.mem.open ==> d in m.open && out.end.mem.open[d] == m.open[d])
            && (!full ==> out.end.disk == at.disk && out.end.mem.sealed == m.sealed)
            && (full ==> exists d ::
                  && IsLeast(m.open.Keys, d)
                  && out.end.mem.open.Keys == m.open.Keys - {d} + {p} && out.end.mem.sealed == m.sealed + {d}
                  && FramesIn(out.end.disk, d) == FramesIn(at.disk, d) + (if OpenIn(m, d) == [] then [] else [OpenIn(m, d)]))
  {
    hide Listing;
    if p !in at.mem.sealed && p !in at.mem.open && |at.mem.open| >= cfg.MaxActive() {
      assert IsLeast(at.mem.open.Keys, Oldest(at.mem.open));
    }
  }

  lemma EnsurePutsNothing(cfg: Config, at: Point, p: Part)
    ensures EnsureDay(cfg, at, p).put == None && EnsureDay(cfg, at, p).logged == None
  {
  }

  /** One operation of a process: the registry stays numbered, and a sample put is not older than its metric's last. */
  lemma PerformRegistry(cfg: Config, at: Point, op: Op)
    requires Numbered(at.mem.cat)
    ensures var out := Perform(cfg, at, op);
            && Numbered(out.end.mem.cat) && LastGrows(at.mem.cat, out.end.mem.cat)
            && (out.put.Some? ==>
                  var s := out.put.value;
                  && (LastOf(at.mem.cat, s.id).Some? ==> s.ts >= LastOf(at.mem.cat, s.id).value)
                  && LastOf(out.end.mem.cat, s.id).Some? && LastOf(out.end.mem.cat, s.id).value >= s.ts)
  {
    hide AddSample, FlushAll, Numbered, NoteLast, GetId, LastOf, SameNames;
    match op
    case Ingest(q) =>
      var c := at.mem.cat;
      AddSampleCat(cfg, at, q);
      GetIdKeeps(c, q.name, q.valueType);
      var (d, given) := GetId(c, q.name, q.valueType);
      var end := AddSample(cfg, at, q).end.mem.cat;
      if given.Ok? {
        NoteLastKeeps(d, given.value, q.ts);
        if SameNames(NoteLast(d, given.value, q.ts), end) {
          SameAnswers(NoteLast(d, given.value, q.ts), end, q.name, q.valueType);
        }
      }
      if SameNames(c, end) { SameAnswers(c, end, q.name, q.valueType); }
      if SameNames(d, end) { SameAnswers(d, end, q.name, q.valueType); }
    case FlushOpen(order) =>
      FlushAllCat(cfg, at, order);
      SameAnswers(at.mem.cat, FlushAll(cfg, at, order).end.mem.cat, [], INT32_SAMPLE);
  }

  lemma {:induction false} FlushDaysCat(cfg: Config, at: Point, order: seq<Part>)
    ensures SameNames(at.mem.cat, FlushDays(cfg, at, order).end.mem.cat)
  {
    hide WriteDay, WriteTrail;
    if order != [] {
      FlushDaysCat(cfg, at, order[..|order| - 1]);
      WriteStores(cfg, FlushDays(cfg, at, order[..|order| - 1]).end, order[|order| - 1]);
    }
  }

  lemma FlushAllCat(cfg: Config, at: Point, order: seq<Part>)
    ensures SameNames(at.mem.cat, FlushAll(cfg, at, order).end.mem.cat) && FlushAll(cfg, at, order).put == None
  {
    hide FlushDays, Listing;
    FlushDaysCat(cfg, at, order);
  }

  // ---------------------------------------------------------------- one process, from opening to crash

  /** The point a process reaches after ops. */
  ghost function After(cfg: Config, at: Point, ops: seq<Op>): (r: Point) {
    if ops == [] then at else Perform(cfg, After(cfg, at, ops[..|ops| - 1]), ops[|ops| - 1]).end
  }

  ghost function LastOutcome(cfg: Config, at: Point, ops: seq<Op>): (r: Outcome)
    requires ops != []
  {
    Perform(cfg, After(cfg, at, ops[..|ops| - 1]), ops[|ops| - 1])
  }

  /** The samples a process accepted, in order. */
  ghost function Accepted(cfg: Config, at: Point, ops: seq<Op>): (rs: Page) {
    if ops == [] then []
    else
      var put := LastOutcome(cfg, at, ops).put;
      Accepted(cfg, at, ops[..|ops| - 1]) + if put.Some? then [put.value] else []
  }

  lemma AcceptedNext(cfg: Config, at: Point, ops: seq<Op>, op: Op)
    ensures var out := Perform(cfg, After(cfg, at, ops), op);
            && After(cfg, at, ops + [op]) == out.end
            && Accepted(cfg, at, ops + [op]) == Accepted(cfg, at, ops) + if out.put.Some? then [out.put.value] else []
  {
    hide Perform;
    assert (ops + [op])[..|ops|] == ops;
  }

  /** The samples a process accepted without logging them. */
  ghost function AcceptedBare(cfg: Config, at: Point, ops: seq<Op>): (rs: multiset<Sample>) {
    if ops == [] then multiset{} else AcceptedBare(cfg, at, ops[..|ops| - 1]) + Bare(LastOutcome(cfg, at, ops))
  }

  function InPart(cfg: Config, rs: Page, p: Part): (r: Page) {
    if rs == [] then []
    else
      var s := rs[|rs| - 1];
      InPart(cfg, rs[..|rs| - 1], p) + if cfg.part(s.ts) == p then [s] else []
  }

  lemma InPartNext(cfg: Config, rs: Page, put: Option<Sample>, p: Part)
    ensures InPart(cfg, rs + if put.Some? then [put.value] else [], p) == InPart(cfg, rs, p) + Added(cfg, put, p)
  {
    if put.Some? {
      assert (rs + [put.value])[..|rs|] == rs;
    } else {
      assert rs + [] == rs;
    }
  }

  ghost predicate AllTimed(ops: seq<Op>) {
    forall i :: 0 <= i < |ops| ==> Timed(ops[i])
  }

  lemma {:induction false} ProcessStores(cfg: Config, at: Point, un: multiset<Sample>, ops: seq<Op>)
    requires Inv(cfg, at, un) && AllTimed(ops)
    ensures var end := After(cfg, at, ops);
            && Inv(cfg, end, un + AcceptedBare(cfg, at, ops)) && at.mem.sealed <= end.mem.sealed
            && (forall p :: Stored(end, p) == Stored(at, p) + InPart(cfg, Accepted(cfg, at, ops), p))
            && (forall s :: s in Accepted(cfg, at, ops) ==> cfg.part(s.ts) !in at.mem.sealed)
  {
    hide Inv, Perform, Stored, Bare;
    if ops == [] {
      assert un + multiset{} == un;
    } else {
      var init, op := ops[..|ops| - 1], ops[|ops| - 1];
      ProcessStores(cfg, at, un, init);
      var mid := After(cfg, at, init);
      var un' := un + AcceptedBare(cfg, at, init);
      PerformSound(cfg, mid, un', op);
      var out := Perform(cfg, mid, op);
      assert un' + Bare(out) == un + AcceptedBare(cfg, at, ops);
      forall p ensures Stored(out.end, p) == Stored(at, p) + InPart(cfg, Accepted(cfg, at, ops), p) {
        InPartNext(cfg, Accepted(cfg, at, init), out.put, p);
      }
    }
  }

  /**
   Within one process: every accepted sample is stored exactly once, in a flushed frame or on the open page of
   its partition, in the order of acceptance and after what was stored before; never more days are open than
   the setting allows, and none of them is sealed; and an open sample accepted with logging is still in the log.
   */
  lemma ProcessConserves(cfg: Config, at: Point, un: multiset<Sample>, ops: seq<Op>, p: Part)
    requires Inv(cfg, at, un) && AllTimed(ops)
    ensures var end := After(cfg, at, ops);
            && Stored(end, p) == Stored(at, p) + InPart(cfg, Accepted(cfg, at, ops), p)
            && DaysOk(cfg, end.mem)
            && multiset(OpenIn(end.mem, p)) <= multiset(LoggedIn(cfg, end.disk.wal, p)) + un + AcceptedBare(cfg, at, ops)
  {
    ProcessStores(cfg, at, un, ops);
    var end := After(cfg, at, ops);
    assert Backed(cfg, end, p, un + AcceptedBare(cfg, at, ops));
  }

  lemma {:induction false} AfterSplit(cfg: Config, at: Point, ops: seq<Op>, more: seq<Op>)
    ensures After(cfg, at, ops + more) == After(cfg, After(cfg, at, ops), more)
    decreases |more|
  {
    hide Perform;
    if more == [] {
      assert ops + more == ops;
    } else {
      assert ops + more == (ops + more[..|more| - 1]) + [more[|more| - 1]];
      assert (ops + more)[..|ops + more| - 1] == ops + more[..|more| - 1];
      AfterSplit(cfg, at, ops, more[..|more| - 1]);
    }
  }

  /** Once a day is sealed it stays sealed, and what it stores never changes again in that process. */
  lemma SealedIsFinal(cfg: Config, at: Point, un: multiset<Sample>, ops: seq<Op>, more: seq<Op>, p: Part)
    requires Inv(cfg, at, un) && AllTimed(ops) && AllTimed(more)
    requires p in After(cfg, at, ops).mem.sealed
    ensures p in After(cfg, at, ops + more).mem.sealed
    ensures Stored(After(cfg, at, ops + more), p) == Stored(After(cfg, at, ops), p)
  {
    ProcessStores(cfg, at, un, ops);
    var mid := After(cfg, at, ops);
    ProcessStores(cfg, mid, un + AcceptedBare(cfg, at, ops), more);
    AfterSplit(cfg, at, ops, more);
    hide Inv, Stored, After;
    NoneInPart(cfg, Accepted(cfg, mid, more), p);
  }

  lemma {:induction false} NoneInPart(cfg: Config, rs: Page, p: Part)
    requires forall s :: s in rs ==> cfg.part(s.ts) != p
    ensures InPart(cfg, rs, p) == []
  {
    if rs != [] {
      assert rs == rs[..|rs| - 1] + [rs[|rs| - 1]];
      NoneInPart(cfg, rs[..|rs| - 1], p);
    }
  }

  /** Every accepted sample is at or before its metric's last time. */
  ghost predicate Behind(c: Registry, rs: Page) {
    forall s :: s in rs ==> LastOf(c, s.id).Some? && s.ts <= LastOf(c, s.id).value
  }

  ghost predicate MetricOrder(rs: Page) {
    forall i, j :: 0 <= i < j < |rs| && rs[i].id == rs[j].id ==> rs[i].ts <= rs[j].ts
  }

  /** Within one process, the accepted times of one metric never go back. */
  lemma {:induction false} ProcessIsMonotone(cfg: Config, at: Point, ops: seq<Op>)
    requires Numbered(at.mem.cat)
    ensures MetricOrder(Accepted(cfg, at, ops))
    ensures var end := After(cfg, at, ops);
            Numbered(end.mem.cat) && Behind(end.mem.cat, Accepted(cfg, at, ops)) && LastGrows(at.mem.cat, end.mem.cat)
    ensures forall s :: s in Accepted(cfg, at, ops) && LastOf(at.mem.cat, s.id).Some? ==> s.ts >= LastOf(at.mem.cat, s.id).value
  {
    hide Perform, Numbered, LastOf;
    if ops != [] {
      var init, op := ops[..|ops| - 1], ops[|ops| - 1];
      ProcessIsMonotone(cfg, at, init);
      var mid := After(cfg, at, init);
      PerformRegistry(cfg, mid, op);
    }
  }

  // ---------------------------------------------------------------- crashes and restarts

  /** `bare` counts the samples this process accepted without logging. */
  datatype State = Up(at: Point, bare: multiset<Sample>) | Down(disk: Disk)

  /** A crash comes after the k-th durable write of an operation, or of a replay. */
  datatype Label = Exec(op: Op) | Crash(op: Op, k: nat) | Restart | CrashInReplay(k: nat)

  ghost function CutAt(before: Disk, trail: seq<Point>, k: nat): Disk
    requires k <= |trail|
  {
    if k == 0 then before else trail[k - 1].disk
  }

  ghost predicate Next(cfg: Config, s: State, l: Label, s': State) {
    match l
    case Exec(op) =>
      s.Up? && Timed(op) && s' == Up(Perform(cfg, s.at, op).end, s.bare + Bare(Perform(cfg, s.at, op)))
    case Crash(op, k) =>
      && s.Up? && Timed(op) && k <= |Perform(cfg, s.at, op).trail|
      && s' == Down(CutAt(s.at.disk, Perform(cfg, s.at, op).trail, k))
    case Restart =>
      && s.Down?
      && var out := Reopen(cfg, s.disk);
         s' == if out.err.None? then Up(out.end, multiset{}) else Down(out.end.disk)
    case CrashInReplay(k) =>
      && s.Down? && k <= |Reopen(cfg, s.disk).trail|
      && s' == Down(CutAt(s.disk, Reopen(cfg, s.disk).trail, k))
  }

  const FRESH: State := Down(Disk([], [], map[]))

  ghost predicate Run(cfg: Config, ss: seq<State>, ls: seq<Label>) {
    && |ss| == |ls| + 1 && ss[0] == FRESH
    && forall i :: 0 <= i < |ls| ==> Next(cfg, ss[i], ls[i], ss[i + 1])
  }

  lemma MetricRunGrows(cfg: Config, ss: seq<State>, ls: seq<Label>, l: Label, s: State)
    requires Run(cfg, ss, ls) && Next(cfg, ss[|ls|], l, s)
    ensures Run(cfg, ss + [s], ls + [l])
  {
    hide Next;
    var ss', ls' := ss + [s], ls + [l];
    forall i | 0 <= i < |ls'| ensures Next(cfg, ss'[i], ls'[i], ss'[i + 1]) {
      if i < |ls| {
        assert Next(cfg, ss[i], ls[i], ss[i + 1]);
      }
    }
  }

  /** The files are those of some point that keeps the invariant. */
  ghost predicate Sound(cfg: Config, disk: Disk) {
    exists pt: Point, un: multiset<Sample> :: pt.disk == disk && Inv(cfg, pt, un)
  }

  ghost predicate Safe(cfg: Config, s: State) {
    match s
    case Up(at, bare) => Inv(cfg, at, bare)
    case Down(disk) => Sound(cfg, disk)
  }

  lemma SoundFrom(cfg: Config, pt: Point, un: multiset<Sample>)
    requires Inv(cfg, pt, un)
    ensures Sound(cfg, pt.disk)
  {
    hide Inv;
  }

  lemma CarriesSound(cfg: Config, from: Point, s: Option<Sample>, un: multiset<Sample>, pt: Point)
    requires Carries(cfg, from, s, un, pt)
    ensures Inv(cfg, pt, un) && Sound(cfg, pt.disk)
  {
    hide Inv;
    SoundFrom(cfg, pt, un);
  }

  lemma CrashOkSound(cfg: Config, pt: Point, un: multiset<Sample>, disk: Disk)
    requires CrashOk(cfg, pt, un, disk)
    ensures Sound(cfg, disk)
  {
    hide Inv;
    SoundFrom(cfg, Point(disk, pt.mem), un);
  }

  lemma ExecIsSafe(cfg: Config, at: Point, bare: multiset<Sample>, op: Op)
    requires Inv(cfg, at, bare) && Timed(op)
    ensures var out := Perform(cfg, at, op);
            && Inv(cfg, out.end, bare + Bare(out))
            && forall k :: 0 <= k <= |out.trail| ==> Sound(cfg, CutAt(at.disk, out.trail, k))
  {
    hide Inv, Perform, Carries, Sound, Bare;
    PerformSound(cfg, at, bare, op);
    var out := Perform(cfg, at, op);
    CarriesSound(cfg, at, out.put, bare + Bare(out), out.end);
    SoundFrom(cfg, at, bare);
    forall k | 0 <= k <= |out.trail| ensures Sound(cfg, CutAt(at.disk, out.trail, k)) {
      if k > 0 {
        var pt := out.trail[k - 1];
        CarriesSound(cfg, at, if Carries(cfg, at, None, bare + Bare(out), pt) then None else out.put, bare + Bare(out), pt);
      }
    }
  }

  lemma TruncatedKeeps(cfg: Config, pt: Point, un: multiset<Sample>, c: Registry)
    requires Inv(cfg, pt, un)
    ensures Inv(cfg, Point(pt.disk.(wal := []), Mem(c, map[], {})), multiset{})
  {
  }

  /** Reopening any files a run can leave keeps them sound at every write, and seals no day. */
  lemma ReopenIsSafe(cfg: Config, disk: Disk)
    requires Sound(cfg, disk)
    ensures var out := Reopen(cfg, disk);
            && Sound(cfg, out.end.disk) && out.end.mem.sealed == {}
            && (out.err.None? ==> Inv(cfg, out.end, multiset{}))
            && (cfg.walEnabled ==> out.end.disk.wal == disk.wal)
            && forall k :: 0 <= k <= |out.trail| ==> Sound(cfg, CutAt(disk, out.trail, k))
  {
    hide Inv, Load, OpenFrom;
    if Load(disk.saved).Ok? {
      ResumeIsSafe(cfg, disk, Load(disk.saved).value);
    }
  }

  lemma ResumeIsSafe(cfg: Config, disk: Disk, c: Registry)
    requires Sound(cfg, disk)
    ensures var out := OpenFrom(cfg, disk, c);
            && Sound(cfg, out.end.disk) && out.end.mem.sealed == {}
            && (out.err.None? ==> Inv(cfg, out.end, multiset{}))
            && (cfg.walEnabled ==> out.end.disk.wal == disk.wal)
            && forall k :: 0 <= k <= |out.trail| ==> Sound(cfg, CutAt(disk, out.trail, k))
  {
    hide Inv, Replay, CrashOk, Resolves;
    var pt: Point, un: multiset<Sample> :| pt.disk == disk && Inv(cfg, pt, un);
    hide Sound;
    var out := OpenFrom(cfg, disk, c);
    if !cfg.walEnabled {
      TruncatedKeeps(cfg, pt, un, c);
      SoundFrom(cfg, out.end, multiset{});
    } else if Resolves(c, disk.wal) {
      ReplayNeverSeals(cfg, pt, un, c);
      CrashOkSound(cfg, pt, un, out.end.disk);
      forall k | 0 <= k <= |out.trail| ensures Sound(cfg, CutAt(disk, out.trail, k)) {
        if k > 0 {
          CrashOkSound(cfg, pt, un, out.trail[k - 1].disk);
        }
      }
    }
  }

  lemma FreshIsSafe(cfg: Config)
    ensures Safe(cfg, FRESH)
  {
    var pt := Point(FRESH.disk, Mem(NO_METRICS, map[], {}));
    assert Inv(cfg, pt, multiset{});
  }

  lemma StepIsSafe(cfg: Config, s: State, l: Label, s': State)
    requires Safe(cfg, s) && Next(cfg, s, l, s')
    ensures Safe(cfg, s')
  {
    hide Inv, Sound, Perform, Reopen, Bare, CutAt;
    match l
    case Exec(op) => ExecIsSafe(cfg, s.at, s.bare, op);
    case Crash(op, k) => ExecIsSafe(cfg, s.at, s.bare, op);
    case Restart => ReopenIsSafe(cfg, s.disk);
    case CrashInReplay(k) => ReopenIsSafe(cfg, s.disk);
  }

  lemma {:induction false} RunIsSafe(cfg: Config, ss: seq<State>, ls: seq<Label>, i: nat)
    requires Run(cfg, ss, ls) && i < |ss|
    ensures Safe(cfg, ss[i])
  {
    if i == 0 {
      FreshIsSafe(cfg);
    } else {
      hide Safe, Next;
      RunIsSafe(cfg, ss, ls, i - 1);
      StepIsSafe(cfg, ss[i - 1], ls[i - 1], ss[i]);
    }
  }

  /**
   At every crash point of every run, also one inside a replay, reopening never seals a day and so never
   truncates the log it is reading: the records above their watermarks span at most the allowed days.
   */
  lemma RunsNeverSealInReplay(cfg: Config, ss: seq<State>, ls: seq<Label>, i: nat)
    requires Run(cfg, ss, ls) && i < |ss| && ss[i].Down?
    ensures var out := Reopen(cfg, ss[i].disk);
            && out.end.mem.sealed == {}
            && (cfg.walEnabled ==> out.end.disk.wal == ss[i].disk.wal)
            && (out.err.None? ==> DaysOk(cfg, out.end.mem))
  {
    hide Run, Reopen, FilesOk, OpenOk, Covered, Backed;
    RunIsSafe(cfg, ss, ls, i);
    ReopenIsSafe(cfg, ss[i].disk);
  }

  lemma {:induction false} AboveCount(cfg: Config, ws: seq<Logged>, p: Part, mark: Timestamp, s: Sample)
    ensures multiset(AboveIn(cfg, ws, p, mark))[s] == if IsDurable(s.ts, mark) then 0 else multiset(LoggedIn(cfg, ws, p))[s]
  {
    hide IsDurable;
    if ws != [] {
      AboveCount(cfg, ws[..|ws| - 1], p, mark, s);
    }
  }

  /**
   How often a sample is stored once the files of any database are opened: as often as in the frames, and, above the
   watermark of its partition, as often again as in the log. At or below it the log does not count.
   */
  lemma ReopenCounts(cfg: Config, d: Disk, s: Sample)
    requires cfg.walEnabled && Reopen(cfg, d).err.None?
    ensures var p := cfg.part(s.ts);
            multiset(Stored(Reopen(cfg, d).end, p))[s]
            == multiset(Flatten(FramesIn(d, p)))[s]
               + if IsAbove(s.ts, FramesIn(d, p)) then multiset(LoggedIn(cfg, d.wal, p))[s] else 0
  {
    hide Replay, IsDurable, Mark, Flatten, Load, Resolves, Stored;
    var p := cfg.part(s.ts);
    ReplayIsExact(cfg, d, Load(d.saved).value, p);
    AboveCount(cfg, d.wal, p, Mark(FramesIn(d, p)), s);
  }

  /**
   What a crash of a running process takes from a partition: of a sample above the watermark, at most the copies
   accepted without logging; of a sample at or below it, every copy that is still on the open page, logged or not.
   */
  lemma CrashTakes(cfg: Config, ss: seq<State>, ls: seq<Label>, i: nat, s: Sample)
    requires Run(cfg, ss, ls) && i < |ss| && ss[i].Up? && cfg.walEnabled
    requires Reopen(cfg, ss[i].at.disk).err.None?
    ensures var at, p := ss[i].at, cfg.part(s.ts);
            var before, after := multiset(Stored(at, p))[s], multiset(Stored(Reopen(cfg, at.disk).end, p))[s];
            if IsAbove(s.ts, FramesIn(at.disk, p)) then before <= after + ss[i].bare[s]
            else before == after + multiset(OpenIn(at.mem, p))[s]
  {
    hide Run, Reopen, IsDurable, Mark, Flatten;
    RunIsSafe(cfg, ss, ls, i);
    var at, p := ss[i].at, cfg.part(s.ts);
    assert Backed(cfg, at, p, ss[i].bare);
    ReopenCounts(cfg, at.disk, s);
  }

  lemma {:induction false} AboveMember(cfg: Config, ws: seq<Logged>, w: Logged, mark: Timestamp)
    requires w in ws && !IsDurable(w.sample.ts, mark)
    ensures w.sample in AboveIn(cfg, ws, cfg.part(w.sample.ts), mark)
  {
    hide IsDurable;
    if w != ws[|ws| - 1] {
      assert ws == ws[..|ws| - 1] + [ws[|ws| - 1]];
      AboveMember(cfg, ws[..|ws| - 1], w, mark);
    }
  }

  lemma RefusedIsLogged(cfg: Config, at: Point, q: Request)
    requires AddSample(cfg, at, q).err == Some(OutOfOrder) && AddSample(cfg, at, q).logged.Some?
    ensures var out := AddSample(cfg, at, q);
            && out.put.None? && out.logged.value in out.end.disk.wal
            && out.logged.value.sample.ts == q.ts && out.logged.value.sample.raw == q.raw
  {
    hide EnsureDay, GetId, LogAndPut, EntryFor;
    EnsurePutsNothing(cfg, at, cfg.part(q.ts));
    var known := q.name in at.mem.cat.metrics;
    var ready := EnsureDay(cfg, at, cfg.part(q.ts));
    var (c, given) := GetId(ready.end.mem.cat, q.name, q.valueType);
    if given.Ok? {
      EntryIsSample(cfg, known, q, given.value);
      LogAndPutCat(cfg, ready.end.(mem := ready.end.mem.(cat := c)), EntryFor(cfg, known, q, given.value),
                   Sample(given.value, q.ts, q.raw), q);
    }
  }

  /**
   The log is not the list of acknowledged samples: a sample refused as out of order was logged before its page
   refused it, and when it is above its partition's watermark every successful replay stores it.
   */
  lemma RefusedSampleReturns(cfg: Config, at: Point, q: Request)
    requires cfg.walEnabled
    requires AddSample(cfg, at, q).err == Some(OutOfOrder) && AddSample(cfg, at, q).logged.Some?
    requires var end := AddSample(cfg, at, q).end;
             IsAbove(q.ts, FramesIn(end.disk, cfg.part(q.ts))) && Reopen(cfg, end.disk).err.None?
    ensures var s := AddSample(cfg, at, q).logged.value.sample;
            && s.ts == q.ts && s.raw == q.raw
            && AddSample(cfg, at, q).put.None?
            && s in Stored(Reopen(cfg, AddSample(cfg, at, q).end.disk).end, cfg.part(q.ts))
  {
    hide Replay, IsDurable, Mark, Flatten, EnsureDay, GetId, AboveIn, LogAndPut, EntryFor, Load, Resolves;
    var out, p := AddSample(cfg, at, q), cfg.part(q.ts);
    var d := out.end.disk;
    RefusedIsLogged(cfg, at, q);
    AboveMember(cfg, d.wal, out.logged.value, Mark(FramesIn(d, p)));
    ReplayIsExact(cfg, d, Load(d.saved).value, p);
    var stored := Stored(Reopen(cfg, d).end, p);
    assert out.logged.value.sample in multiset(stored);
  }
}
