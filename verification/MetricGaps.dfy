/**
 What a gap in the ids leads to: whenever a database opens with one, the process that opened it can be made to give an id
 that is taken, and then to accept times of a metric that go back.
 */
module MetricGaps {
  import opened Prelude
  import opened Bytes
  import opened Names
  import opened Codec
  import opened Samples
  import opened MetricRegistry
  import opened MetricEngine
  import opened MetricInvariant
  import opened MetricIngest
  import opened MetricReplay
  import opened MetricReplayPages
  import opened MetricRuns
  import opened MetricRecovery
  import opened MetricWidths
  import opened MetricReadable

  const LAST_TIME: Timestamp := TWO_63 - 1

  // ---------------------------------------------------------------- new names

  /** A name for each number: a letter and three digits in base 256. */
  function Numeral(j: nat): Name {
    [65, j % 256, (j / 256) % 256, (j / 65536) % 256]
  }

  lemma NumeralIsName(j: nat)
    ensures IsMetricName(Numeral(j))
  {
    assert SpaceLen(Numeral(j)) == 0;
  }

  lemma NumeralTells(j: nat)
    requires j < 0x100_0000
    ensures j == 65536 * (Numeral(j)[3] as int) + 256 * (Numeral(j)[2] as int) + Numeral(j)[1] as int
  {
    assert j / 65536 == (j / 256) / 256;
  }

  /** The first n numerals. */
  ghost function Numerals(n: nat): (s: set<Name>) {
    if n == 0 then {} else Numerals(n - 1) + {Numeral(n - 1)}
  }

  lemma {:induction false} NumeralsSize(n: nat)
    requires n <= 0x100_0000
    ensures |Numerals(n)| == n && forall x :: x in Numerals(n) <==> exists j :: 0 <= j < n && Numeral(j) == x
  {
    hide Numeral;
    if n > 0 {
      NumeralsSize(n - 1);
      if Numeral(n - 1) in Numerals(n - 1) {
        var j :| 0 <= j < n - 1 && Numeral(j) == Numeral(n - 1);
        NumeralTells(j);
        NumeralTells(n - 1);
        assert false;
      }
      forall x ensures x in Numerals(n) <==> exists j :: 0 <= j < n && Numeral(j) == x {
        if x == Numeral(n - 1) {
          assert 0 <= n - 1 < n && Numeral(n - 1) == x;
        }
      }
    }
  }

  lemma SomeOutside(a: set<Name>, s: set<Name>)
    requires |a| > |s|
    ensures a - s != {}
  {
    SubsetSize(a * s, s);
    assert a == (a * s) + (a - s);
    assert |a| == |a * s| + |a - s|;
  }

  /** A name that is not one of those in s. */
  lemma NewName(s: set<Name>) returns (n: MetricName)
    requires |s| < 0x100_0000
    ensures n !in s
  {
    hide Numeral, IsMetricName;
    NumeralsSize(|s| + 1);
    var rest := Numerals(|s| + 1) - s;
    SomeOutside(Numerals(|s| + 1), s);
    SomeName(rest);
    var x: Name :| x in rest;
    var j :| 0 <= j < |s| + 1 && Numeral(j) == x;
    NumeralIsName(j);
    n := x;
  }

  // ---------------------------------------------------------------- a process with nothing open

  ghost predicate Idle(at: Point) {
    at.mem.open == map[] && at.mem.sealed == {}
  }

  /** A call for a metric, at a time, that the log does not take. */
  function CallFor(name: MetricName, vt: SampleType, ts: Timestamp): Request {
    Request(name, ts, vt, 0, false, false, false, {}, [])
  }

  lemma IdleOpens(cfg: Config, at: Point, p: Part)
    requires Idle(at)
    ensures var out := EnsureDay(cfg, at, p);
            && out.err == None && out.end == at.(mem := at.mem.(open := map[p := None]))
  {
    assert |at.mem.open| == 0;
  }

  /** At most the day of p is open, with a page. */
  ghost predicate AtMost(at: Point, p: Part) {
    at.mem.sealed == {} && at.mem.open.Keys <= {p} && (p in at.mem.open ==> OpenIn(at.mem, p) != [])
  }

  lemma IdlePuts(cfg: Config, at: Point, w: Option<Logged>, s: Sample, q: Request)
    requires at.mem.sealed == {} && at.mem.open == map[cfg.part(s.ts) := None] && q.order == [] && s.ts == q.ts
    ensures AtMost(LogAndPut(cfg, at, w, s, q).end, cfg.part(s.ts))
  {
    hide Full, NoteLast, WriteDay, MaybeReset;
    var p := cfg.part(s.ts);
    var put := Put(AppendLog(at, w), p, s);
    assert put.mem.open.Keys == {p} && OpenIn(put.mem, p) == [s];
    assert q.order == [] ==> FlushFull(cfg, put, p, q.order, q.aged) == Done(put, []);
    WriteStores(cfg, put, p);
    ResetStores(cfg, WriteDay(cfg, put, p));
  }

  lemma IdleAdds(cfg: Config, at: Point, q: Request)
    requires Idle(at) && q.order == [] && !IsStale(at.mem.cat, q) && GetId(at.mem.cat, q.name, q.valueType).1.Ok?
    ensures AtMost(AddSample(cfg, at, q).end, cfg.part(q.ts))
    ensures AddSample(cfg, at, q).put == Some(Sample(GetId(at.mem.cat, q.name, q.valueType).1.value, q.ts, q.raw))
  {
    hide EnsureDay, GetId, LogAndPut, NoteLast, EntryFor;
    IdleOpens(cfg, at, cfg.part(q.ts));
    AddSampleCat(cfg, at, q);
    IdleAccepts(cfg, at, q);
    var ready := EnsureDay(cfg, at, cfg.part(q.ts)).end;
    var (c, given) := GetId(ready.mem.cat, q.name, q.valueType);
    var named := ready.(mem := ready.mem.(cat := c));
    IdlePuts(cfg, named, EntryFor(cfg, q.name in at.mem.cat.metrics, q, given.value), Sample(given.value, q.ts, q.raw), q);
  }

  lemma IdleAccepts(cfg: Config, at: Point, q: Request)
    requires Idle(at) && !IsStale(at.mem.cat, q) && GetId(at.mem.cat, q.name, q.valueType).1.Ok?
    ensures AddSample(cfg, at, q).put.Some?
  {
    hide AddSample;
    AcceptedIff(cfg, at, q);
  }

  lemma FlushesToIdle(cfg: Config, at: Point, p: Part)
    requires AtMost(at, p)
    ensures Idle(FlushAll(cfg, at, [p]).end) && SameNames(at.mem.cat, FlushAll(cfg, at, [p]).end.mem.cat)
  {
    hide WriteDay, MaybeReset, Save;
    FlushAllCat(cfg, at, [p]);
    assert [p][..0] == [] && FlushDays(cfg, at, []) == Done(at, []);
    WriteStores(cfg, at, p);
    var flushed := FlushDays(cfg, at, [p]).end;
    assert flushed.mem.open.Keys == {};
    ResetStores(cfg, flushed);
    SavesMem(MaybeReset(cfg, flushed));
  }

  lemma SavesMem(at: Point)
    ensures SaveIfDirty(at).mem.open == at.mem.open && SaveIfDirty(at).mem.sealed == at.mem.sealed
  {
    hide Listing;
  }

  /** A call and a flush of its partition. */
  function CallAndFlush(cfg: Config, q: Request): seq<Op> {
    [Ingest(q), FlushOpen([cfg.part(q.ts)])]
  }

  /** On an idle process they note the sample in the registry and leave the process idle. */
  lemma IdleTurn(cfg: Config, at: Point, ops: seq<Op>, q: Request)
    requires Idle(After(cfg, at, ops)) && q.order == []
    requires var c := After(cfg, at, ops).mem.cat;
             !IsStale(c, q) && GetId(c, q.name, q.valueType).1.Ok?
    ensures var c, end := After(cfg, at, ops).mem.cat, After(cfg, at, ops + CallAndFlush(cfg, q));
            var (d, given) := GetId(c, q.name, q.valueType);
            && Idle(end) && SameNames(NoteLast(d, given.value, q.ts), end.mem.cat)
            && Accepted(cfg, at, ops + CallAndFlush(cfg, q)) == Accepted(cfg, at, ops) + [Sample(given.value, q.ts, q.raw)]
  {
    hide Idle, GetId, NoteLast, AddSample, FlushAll, AtMost, IsStale;
    var mid, p := After(cfg, at, ops), cfg.part(q.ts);
    AcceptedNext(cfg, at, ops, Ingest(q));
    AcceptedNext(cfg, at, ops + [Ingest(q)], FlushOpen([p]));
    assert ops + [Ingest(q)] + [FlushOpen([p])] == ops + CallAndFlush(cfg, q);
    IdleAdds(cfg, mid, q);
    AddSampleCat(cfg, mid, q);
    var added := AddSample(cfg, mid, q).end;
    FlushesToIdle(cfg, added, p);
    FlushAllCat(cfg, added, [p]);
    var s := Sample(GetId(mid.mem.cat, q.name, q.valueType).1.value, q.ts, q.raw);
    assert Accepted(cfg, at, ops) + [s] + [] == Accepted(cfg, at, ops) + [s];
  }

  // ---------------------------------------------------------------- making it idle

  lemma ListParts(s: set<Part>) returns (order: seq<Part>)
    ensures forall p :: p in order <==> p in s
    decreases |s|
  {
    if s == {} {
      order := [];
    } else {
      HasMember(s);
      var p :| p in s;
      var rest := ListParts(s - {p});
      order := rest + [p];
    }
  }

  /** Every open day has a page. */
  ghost predicate Paged(m: Mem) {
    forall p :: p in m.open ==> OpenIn(m, p) != []
  }

  lemma {:induction false} FlushesListed(cfg: Config, at: Point, order: seq<Part>)
    requires Paged(at.mem)
    ensures var m := FlushDays(cfg, at, order).end.mem;
            Paged(m) && m.sealed == at.mem.sealed && forall p :: p in m.open <==> p in at.mem.open && p !in order
  {
    hide WriteDay, WriteTrail;
    if order != [] {
      var init, p := order[..|order| - 1], order[|order| - 1];
      FlushesListed(cfg, at, init);
      var prev := FlushDays(cfg, at, init).end;
      WriteFiles(cfg, prev, p);
      WriteStores(cfg, prev, p);
      assert order == init + [p];
    }
  }

  lemma FlushesAll(cfg: Config, at: Point) returns (order: seq<Part>)
    requires Paged(at.mem) && at.mem.sealed == {}
    ensures Idle(FlushAll(cfg, at, order).end) && SameNames(at.mem.cat, FlushAll(cfg, at, order).end.mem.cat)
  {
    order := ListParts(at.mem.open.Keys);
    FlushesListed(cfg, at, order);
    FlushAllCat(cfg, at, order);
    hide FlushDays, MaybeReset, Save;
    var flushed := FlushDays(cfg, at, order).end;
    assert forall p :: p !in flushed.mem.open;
    assert flushed.mem.open == map[];
    ResetStores(cfg, flushed);
    SavesMem(MaybeReset(cfg, flushed));
  }

  // ---------------------------------------------------------------- up to the collision

  /** c has grown from c0 by k metrics that have nothing to do with b. */
  ghost predicate Beside(c0: Registry, c: Registry, b: Name, k: nat) {
    && b in c0.metrics && b in c.metrics && c.metrics[b] == c0.metrics[b]
    && |c.metrics| == |c0.metrics| + k
  }

  lemma BesideNext(c0: Registry, c: Registry, b: Name, k: nat, n: MetricName, ts: Timestamp, end: Registry)
    requires Beside(c0, c, b, k) && n !in c.metrics && |c.metrics| < MAX_METRICS
    requires SameNames(NoteLast(GetId(c, n, INT32_SAMPLE).0, |c.metrics| + 1, ts), end)
    ensures Beside(c0, end, b, k + 1)
    ensures n != b && n in end.metrics && end.metrics[n].id == |c.metrics| + 1
    ensures |c.metrics| + 1 in end.names && end.names[|c.metrics| + 1] == n
  {
    hide IsMetricName;
    var id := |c.metrics| + 1;
    MapGrows(c.metrics, n, Metric(id, INT32_SAMPLE, None));
    var d := Register(c, n, id, INT32_SAMPLE);
    assert end.metrics.Keys == d.metrics.Keys;
    assert |end.metrics| == |end.metrics.Keys| == |d.metrics.Keys| == |d.metrics|;
  }

  lemma IsNew(c: Registry, n: MetricName, ts: Timestamp)
    requires n !in c.metrics && |c.metrics| < MAX_METRICS
    ensures !IsStale(c, CallFor(n, INT32_SAMPLE, ts)) && GetId(c, n, INT32_SAMPLE).1 == Ok(|c.metrics| + 1)
  {
    hide IsMetricName;
  }

  /** k new metrics, one after the other; the last one given the id that comes by count. */
  lemma {:induction false} GivesIds(cfg: Config, at: Point, ops0: seq<Op>, b: Name, k: nat) returns (ops: seq<Op>, n: Name)
    requires Idle(After(cfg, at, ops0)) && b in After(cfg, at, ops0).mem.cat.metrics && AllTimed(ops0)
    requires |After(cfg, at, ops0).mem.cat.metrics| + k <= MAX_METRICS
    ensures ops0 <= ops && AllTimed(ops)
    ensures var c0, end := After(cfg, at, ops0).mem.cat, After(cfg, at, ops);
            && Idle(end) && Beside(c0, end.mem.cat, b, k)
            && (k > 0 ==>
                  var id := |c0.metrics| + k;
                  && n != b && n in end.mem.cat.metrics && end.mem.cat.metrics[n].id == id
                  && id in end.mem.cat.names && end.mem.cat.names[id] == n)
  {
    hide Idle, NoteLast, GetId, After, Accepted, IsMetricName, IsStale, SameNames;
    var c0 := After(cfg, at, ops0).mem.cat;
    if k == 0 {
      ops, n := ops0, [];
    } else {
      var init, last := GivesIds(cfg, at, ops0, b, k - 1);
      var c := After(cfg, at, init).mem.cat;
      assert |c.metrics.Keys| == |c.metrics|;
      var name := NewName(c.metrics.Keys);
      var q := CallFor(name, INT32_SAMPLE, LAST_TIME);
      IsNew(c, name, LAST_TIME);
      IdleTurn(cfg, at, init, q);
      ops, n := init + CallAndFlush(cfg, q), name;
      BesideNext(c0, c, b, k - 1, name, LAST_TIME, After(cfg, at, ops).mem.cat);
      CallTimed(cfg, init, q);
    }
  }

  lemma CallTimed(cfg: Config, ops: seq<Op>, q: Request)
    requires AllTimed(ops) && q.ts >= 0
    ensures AllTimed(ops + CallAndFlush(cfg, q))
  {
    forall i | 0 <= i < |ops + CallAndFlush(cfg, q)| ensures Timed((ops + CallAndFlush(cfg, q))[i]) {
      if i < |ops| {
        assert (ops + CallAndFlush(cfg, q))[i] == ops[i];
      }
    }
  }

  // ---------------------------------------------------------------- and back in time

  /** Two metrics have one id. */
  ghost predicate SharesId(c: Registry, a: Name, b: Name) {
    a != b && a in c.metrics && b in c.metrics && c.metrics[a].id == c.metrics[b].id
  }

  /** b's id is found under another name, so b's last time stays what it was. */
  ghost predicate Shadowed(c: Registry, b: Name, m: Metric) {
    b in c.metrics && c.metrics[b] == m && m.id in c.names && c.names[m.id] != b
  }

  lemma ShadowedNext(c: Registry, b: MetricName, m: Metric, vt: SampleType, ts: Timestamp, end: Registry)
    requires Shadowed(c, b, m) && m.valueType == vt && (m.last.Some? ==> m.last.value <= ts)
    ensures !IsStale(c, CallFor(b, vt, ts)) && GetId(c, b, vt) == (c, Ok(m.id))
    ensures SameNames(NoteLast(c, m.id, ts), end) ==> Shadowed(end, b, m)
  {
    hide IsMetricName;
  }

  /** Two samples of b, the second before the first, are both accepted. */
  lemma GoesBack(cfg: Config, at: Point, ops: seq<Op>, b: MetricName, m: Metric) returns (more: seq<Op>)
    requires Idle(After(cfg, at, ops)) && Shadowed(After(cfg, at, ops).mem.cat, b, m) && AllTimed(ops)
    requires IsSampleType(m.valueType) && (m.last.Some? ==> m.last.value < LAST_TIME)
    ensures ops <= more && AllTimed(more)
    ensures Accepted(cfg, at, more) == Accepted(cfg, at, ops) + [Sample(m.id, LAST_TIME, 0), Sample(m.id, LAST_TIME - 1, 0)]
  {
    hide Idle, NoteLast, GetId, After, Accepted, IsMetricName, IsStale, Shadowed, SameNames;
    var vt: SampleType := m.valueType;
    var q1, q2 := CallFor(b, vt, LAST_TIME), CallFor(b, vt, LAST_TIME - 1);
    var mid := ops + CallAndFlush(cfg, q1);
    ShadowedNext(After(cfg, at, ops).mem.cat, b, m, vt, LAST_TIME, After(cfg, at, mid).mem.cat);
    IdleTurn(cfg, at, ops, q1);
    CallTimed(cfg, ops, q1);
    ShadowedNext(After(cfg, at, mid).mem.cat, b, m, vt, LAST_TIME - 1, After(cfg, at, mid).mem.cat);
    IdleTurn(cfg, at, mid, q2);
    CallTimed(cfg, mid, q2);
    more := mid + CallAndFlush(cfg, q2);
    var s1, s2 := Sample(m.id, LAST_TIME, 0), Sample(m.id, LAST_TIME - 1, 0);
    assert Accepted(cfg, at, ops) + [s1] + [s2] == Accepted(cfg, at, ops) + [s1, s2];
  }

  lemma NotOrdered(rs: Page, id: nat)
    ensures !MetricOrder(rs + [Sample(id, LAST_TIME, 0), Sample(id, LAST_TIME - 1, 0)])
  {
    var all := rs + [Sample(id, LAST_TIME, 0), Sample(id, LAST_TIME - 1, 0)];
    assert all[|rs|].id == all[|rs| + 1].id && all[|rs|].ts > all[|rs| + 1].ts;
  }

  // ---------------------------------------------------------------- from a reopening with a gap

  lemma OpensPaged(cfg: Config, d: Disk)
    requires Sound(cfg, d) && Reopen(cfg, d).err.None?
    ensures Paged(Reopen(cfg, d).end.mem) && Reopen(cfg, d).end.mem.sealed == {}
  {
    hide Sound, RunsUpTo, AllStaged, Staged;
    ReopenIsSafe(cfg, d);
    if cfg.walEnabled {
      hide Reopen;
      forall p | p in Reopen(cfg, d).end.mem.open ensures OpenIn(Reopen(cfg, d).end.mem, p) != [] {
        OpenedRuns(cfg, d, p);
      }
    } else {
      hide Load;
    }
  }

  ghost predicate PinInRange(x: Pin) {
    1 <= x.id <= MAX_METRICS && IsSampleType(x.valueType)
  }

  lemma TakenInRange(cfg: Config, d: Disk)
    requires SaneDisk(d) && Loadable(d.saved)
    ensures forall x :: x in TakenPins(cfg, d) ==> PinInRange(x)
  {
    hide AllValid, IsBlank;
    forall x | x in TakenPins(cfg, d) ensures PinInRange(x) {
      if x in SavedPins(d.saved) {
        var e :| e in d.saved && x == Pin(e.name, e.id, e.valueType);
        var i :| 0 <= i < |d.saved| && d.saved[i] == e;
        assert ValidEntry(d.saved[i]);
      } else {
        var w :| w in d.wal && w.Naming? && x == LoggedPin(w);
        assert SaneRecord(w) && IsSampleType(w.valueType);
      }
    }
  }

  /** What a reopening takes from its files: linked pins within range. */
  lemma OpensTaken(cfg: Config, d: Disk)
    requires Sound(cfg, d) && SaneDisk(d) && Reopen(cfg, d).err.None?
    ensures var c := Reopen(cfg, d).end.mem.cat;
            && Linked(c) && PinsOf(c) == TakenPins(cfg, d) && (Numbered(c) <==> GapFree(TakenPins(cfg, d)))
            && (forall x :: x in PinsOf(c) ==> PinInRange(x))
  {
    hide Sound, SaneDisk, Reopen, Loadable, Resolved, Agree, GapFree, Numbered, Linked, PinsOf, DiskPins;
    if cfg.walEnabled {
      ReopensIff(cfg, d);
    } else {
      ReopensUnloggedIff(cfg, d);
    }
    TakenInRange(cfg, d);
  }

  lemma InRange(c: Registry)
    requires Linked(c) && forall x :: x in PinsOf(c) ==> PinInRange(x)
    ensures forall n :: n in c.metrics ==> IsSampleType(c.metrics[n].valueType)
    ensures forall i :: i in c.names ==> 1 <= i <= MAX_METRICS
  {
    forall n | n in c.metrics ensures PinInRange(PinOf(c, n)) && IsSampleType(c.metrics[n].valueType) {
      assert PinOf(c, n) in PinsOf(c);
    }
    forall i | i in c.names ensures 1 <= i <= MAX_METRICS {
      assert PinInRange(PinOf(c, c.names[i]));
    }
  }

  /** The first of the operations: everything open is flushed. */
  lemma BecomesIdle(cfg: Config, at: Point) returns (ops: seq<Op>)
    requires Paged(at.mem) && at.mem.sealed == {}
    ensures AllTimed(ops) && Idle(After(cfg, at, ops)) && SameNames(at.mem.cat, After(cfg, at, ops).mem.cat)
    ensures Accepted(cfg, at, ops) == []
  {
    hide FlushAll, Idle, SameNames;
    var order := FlushesAll(cfg, at);
    ops := [FlushOpen(order)];
    AcceptedNext(cfg, at, [], FlushOpen(order));
    assert [] + [FlushOpen(order)] == ops;
    FlushAllCat(cfg, at, order);
    assert After(cfg, at, []) == at;
  }

  lemma SameSizes(c: Registry, d: Registry)
    requires SameNames(c, d)
    ensures |c.metrics| == |d.metrics|
  {
  }

  /** From a registry with a gap, some operations give an id twice, and let the older metric's times go back. */
  lemma GapShares(cfg: Config, at: Point) returns (ops: seq<Op>, a: Name, b: Name)
    requires Paged(at.mem) && at.mem.sealed == {}
    requires var c := at.mem.cat;
             Linked(c) && !Numbered(c) && forall x :: x in PinsOf(c) ==> PinInRange(x)
    ensures AllTimed(ops) && SharesId(After(cfg, at, ops).mem.cat, a, b) && b in at.mem.cat.metrics
    ensures IsMetricName(b) && (at.mem.cat.metrics[b].last.Some? ==> at.mem.cat.metrics[b].last.value < LAST_TIME) ==>
              !MetricOrder(Accepted(cfg, at, ops))
  {
    hide Idle, After, Accepted, Numbered, PinsOf, SameNames, Paged, MetricOrder, IsMetricName;
    var c := at.mem.cat;
    InRange(c);
    var id := IdBeyondSize(c);
    b := c.names[id];
    var m := c.metrics[b];
    var idle := BecomesIdle(cfg, at);
    SameSizes(c, After(cfg, at, idle).mem.cat);
    SameMetric(c, After(cfg, at, idle).mem.cat, b);
    ops, a := GivesIds(cfg, at, idle, b, id - |c.metrics|);
    if IsMetricName(b) && (m.last.Some? ==> m.last.value < LAST_TIME) {
      var more := GoesBack(cfg, at, ops, b, m);
      NotOrdered(Accepted(cfg, at, ops), m.id);
      StillShares(cfg, at, ops, more, a, b);
      ops := more;
    }
  }

  lemma SameMetric(c: Registry, d: Registry, b: Name)
    requires SameNames(c, d) && b in c.metrics
    ensures b in d.metrics && d.metrics[b] == c.metrics[b]
  {
  }

  /** Ids do not change. */
  lemma {:induction false} StillShares(cfg: Config, at: Point, ops: seq<Op>, more: seq<Op>, a: Name, b: Name)
    requires ops <= more && SharesId(After(cfg, at, ops).mem.cat, a, b)
    ensures SharesId(After(cfg, at, more).mem.cat, a, b)
    decreases |more|
  {
    hide Perform;
    if |more| == |ops| {
      assert more == ops;
    } else {
      StillShares(cfg, at, ops, more[..|more| - 1], a, b);
      PerformKeepsIds(cfg, After(cfg, at, more[..|more| - 1]), more[|more| - 1], a);
      PerformKeepsIds(cfg, After(cfg, at, more[..|more| - 1]), more[|more| - 1], b);
    }
  }

  lemma NoteKeepsIds(c: Registry, id: nat, ts: Timestamp, n: Name)
    requires n in c.metrics
    ensures n in NoteLast(c, id, ts).metrics && NoteLast(c, id, ts).metrics[n].id == c.metrics[n].id
  {
  }

  lemma PerformKeepsIds(cfg: Config, at: Point, op: Op, n: Name)
    requires n in at.mem.cat.metrics
    ensures var d := Perform(cfg, at, op).end.mem.cat;
            n in d.metrics && d.metrics[n].id == at.mem.cat.metrics[n].id
  {
    hide AddSample, FlushAll, NoteLast, IsMetricName;
    match op
    case Ingest(q) =>
      AddSampleCat(cfg, at, q);
      var (c, given) := GetId(at.mem.cat, q.name, q.valueType);
      assert n in c.metrics && c.metrics[n].id == at.mem.cat.metrics[n].id;
      if given.Ok? {
        NoteKeepsIds(c, given.value, q.ts, n);
      }
    case FlushOpen(order) => FlushAllCat(cfg, at, order);
  }

  function Execs(ops: seq<Op>): (ls: seq<Label>)
    ensures |ls| == |ops|
  {
    seq(|ops|, i requires 0 <= i < |ops| => Exec(ops[i]))
  }

  /** A run goes on with any operations. */
  lemma {:induction false} RunGoesOn(cfg: Config, ss: seq<State>, ls: seq<Label>, ops: seq<Op>) returns (more: seq<State>)
    requires Run(cfg, ss, ls) && ss[|ls|].Up? && AllTimed(ops)
    ensures Run(cfg, more, ls + Execs(ops)) && ss <= more
    ensures more[|ls| + |ops|].Up? && more[|ls| + |ops|].at == After(cfg, ss[|ls|].at, ops)
    decreases |ops|
  {
    hide Perform;
    if ops == [] {
      more := ss;
      assert ls + Execs(ops) == ls;
    } else {
      var init, op := ops[..|ops| - 1], ops[|ops| - 1];
      var before := RunGoesOn(cfg, ss, ls, init);
      assert Timed(op);
      var s := before[|ls| + |init|];
      var next := Up(Perform(cfg, s.at, op).end, s.bare + Bare(Perform(cfg, s.at, op)));
      MetricRunGrows(cfg, before, ls + Execs(init), Exec(op), next);
      more := before + [next];
      assert ls + Execs(init) + [Exec(op)] == ls + Execs(ops);
    }
  }

  /**
   In any run, from a reopening of files in which some id up to the largest is missing, the run can go on so that two
   metrics have one id; and, when the older of them has a name ingest takes and is not yet at the last of all times, so
   that accepted times of one id go back.
   */
  lemma GapGoesWrong(cfg: Config, ss: seq<State>, ls: seq<Label>)
      returns (ops: seq<Op>, more: seq<State>, a: Name, b: Name)
    requires Run(cfg, ss, ls) && |ls| >= 1 && ls[|ls| - 1].Restart? && ss[|ls|].Up?
    requires !GapFree(TakenPins(cfg, ss[|ls| - 1].disk))
    ensures Run(cfg, more, ls + Execs(ops)) && ss <= more && more[|ls| + |ops|].Up?
    ensures SharesId(more[|ls| + |ops|].at.mem.cat, a, b) && b in ss[|ls|].at.mem.cat.metrics
    ensures var last := ss[|ls|].at.mem.cat.metrics[b].last;
            IsMetricName(b) && (last.Some? ==> last.value < LAST_TIME) ==> !MetricOrder(Accepted(cfg, ss[|ls|].at, ops))
  {
    hide GapFree, TakenPins, Reopen, Sound, SaneDisk, Linked, PinsOf, Numbered, Paged, SharesId, MetricOrder, IsMetricName, StateSane;
    var n := |ls| - 1;
    assert Next(cfg, ss[n], ls[n], ss[n + 1]);
    RestartIsSound(cfg, ss, ls, n);
    DownSane(cfg, ss, ls, n);
    OpensPaged(cfg, ss[n].disk);
    OpensTaken(cfg, ss[n].disk);
    ops, a, b := GapShares(cfg, ss[|ls|].at);
    more := RunGoesOn(cfg, ss, ls, ops);
  }

  lemma DownSane(cfg: Config, ss: seq<State>, ls: seq<Label>, i: nat)
    requires Run(cfg, ss, ls) && i < |ss| && ss[i].Down?
    ensures SaneDisk(ss[i].disk)
  {
    hide Run, SaneDisk;
    RunSane(cfg, ss, ls, i);
  }

  lemma NumberedShares(c: Registry, a: Name, b: Name)
    requires Numbered(c)
    ensures !SharesId(c, a, b)
  {
  }

  /**
   From any reopening of a run: every metric has an id of its own whatever the process does if and only if no id up to the
   largest is missing from the files.
   */
  lemma OneIdEachIff(cfg: Config, ss: seq<State>, ls: seq<Label>)
    requires Run(cfg, ss, ls) && |ls| >= 1 && ls[|ls| - 1].Restart? && ss[|ls|].Up?
    ensures (forall ops, a, b :: AllTimed(ops) ==> !SharesId(After(cfg, ss[|ls|].at, ops).mem.cat, a, b))
            <==> GapFree(TakenPins(cfg, ss[|ls| - 1].disk))
  {
    hide GapFree, TakenPins, Reopen, Sound, SaneDisk, Linked, PinsOf, Numbered, Paged, SharesId, After, StateSane, Accepted;
    var n, at := |ls| - 1, ss[|ls|].at;
    assert Next(cfg, ss[n], ls[n], ss[n + 1]);
    RestartIsSound(cfg, ss, ls, n);
    DownSane(cfg, ss, ls, n);
    OpensPaged(cfg, ss[n].disk);
    OpensTaken(cfg, ss[n].disk);
    if GapFree(TakenPins(cfg, ss[n].disk)) {
      forall ops, a, b | AllTimed(ops) ensures !SharesId(After(cfg, at, ops).mem.cat, a, b) {
        ProcessIsMonotone(cfg, at, ops);
        NumberedShares(After(cfg, at, ops).mem.cat, a, b);
      }
    } else {
      var ops, a, b := GapShares(cfg, at);
    }
  }
}
