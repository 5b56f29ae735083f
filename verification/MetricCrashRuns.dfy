/**
 Three concrete runs of the metric layer that end other than its documentation leads one to expect: an acknowledged and
 logged sample that is gone after a crash, two metrics that share one id, and a log that does not open again.
 */
module MetricCrashRuns {
  import opened Prelude
  import opened Bytes
  import opened Names
  import opened Samples
  import opened MetricRegistry
  import opened MetricEngine
  import opened MetricInvariant
  import opened MetricIngest
  import opened MetricReplay
  import opened MetricRuns
  import opened MetricRecovery

  const CFG: Config := Config(_ => 0, Limits(1000, 262144), 2, true, false)
  const A: MetricName := [65]
  const B: MetricName := [66]
  const C: MetricName := [67]

  /** A call for a metric of 32-bit integers; `recent` tells whether the log takes it. */
  function Call(name: MetricName, ts: Timestamp, recent: bool): Request {
    Request(name, ts, INT32_SAMPLE, 7, false, false, recent, {}, [])
  }

  /** Nothing open, or a page of one partition with room. */
  ghost predicate Quiet(at: Point) {
    && at.mem.sealed == {} && at.mem.open.Keys <= {0}
    && |OpenIn(at.mem, 0)| < 10
  }

  // ---------------------------------------------------------------- single steps

  lemma StaysOpen(page: Page)
    requires |page| <= 10
    ensures !Full(page, CFG.limits, false)
  {
    assert CFG.limits == Limits(1000, 262144);
  }

  lemma OpensQuietly(at: Point)
    requires Quiet(at)
    ensures var out := EnsureDay(CFG, at, 0);
            && out == Done(out.end, []) && out.end.disk == at.disk && out.end.mem.cat == at.mem.cat
            && OpenIn(out.end.mem, 0) == OpenIn(at.mem, 0) && out.end.mem.open.Keys == {0} && out.end.mem.sealed == {}
  {
    hide SealDay;
    if 0 !in at.mem.open {
      assert at.mem.open.Keys == {};
      assert |at.mem.open| == |at.mem.open.Keys| == 0;
    }
  }

  lemma PutsQuietly(at: Point, w: Option<Logged>, s: Sample, q: Request)
    requires Quiet(at) && !Refuses(at.mem, 0, s.ts) && q.order == [] && q.aged == {}
    ensures LogAndPut(CFG, at, w, s, q).end == Put(AppendLog(at, w), 0, s)
    ensures LogAndPut(CFG, at, w, s, q).put == Some(s) && LogAndPut(CFG, at, w, s, q).err == None
    ensures LogAndPut(CFG, at, w, s, q).logged == w
  {
    hide Full, NoteLast, WriteDay, MaybeReset;
    StaysOpen(OpenIn(at.mem, 0) + [s]);
    assert q.order == [] ==> FlushFull(CFG, Put(AppendLog(at, w), 0, s), 0, q.order, q.aged) == Done(Put(AppendLog(at, w), 0, s), []);
  }

  /** A call that goes through leaves its record in the log, its sample on the page, and its time in the registry. */
  lemma Adds(at: Point, q: Request, id: nat)
    requires Quiet(at) && !IsStale(at.mem.cat, q) && !Refuses(at.mem, 0, q.ts) && q.order == [] && q.aged == {}
    requires GetId(at.mem.cat, q.name, q.valueType).1 == Ok(id)
    ensures var out, s := AddSample(CFG, at, q), Sample(id, q.ts, q.raw);
            var w := EntryFor(CFG, q.name in at.mem.cat.metrics, q, id);
            && out.err == None && out.put == Some(s) && out.logged == w
            && out.end.disk == AppendLog(at, w).disk
            && out.end.mem.cat == NoteLast(GetId(at.mem.cat, q.name, q.valueType).0, id, q.ts)
            && OpenIn(out.end.mem, 0) == OpenIn(at.mem, 0) + [s]
            && out.end.mem.open.Keys == {0} && out.end.mem.sealed == {}
  {
    hide EnsureDay, GetId, LogAndPut, NoteLast, EntryFor;
    OpensQuietly(at);
    var ready := EnsureDay(CFG, at, 0).end;
    var named := ready.(mem := ready.mem.(cat := GetId(ready.mem.cat, q.name, q.valueType).0));
    var known := q.name in at.mem.cat.metrics;
    PutsQuietly(named, EntryFor(CFG, known, q, id), Sample(id, q.ts, q.raw), q);
  }

  /** A flush writes the page, saves a registry with news, and empties the log. */
  lemma Flushes(at: Point)
    requires Quiet(at) && OpenIn(at.mem, 0) != []
    ensures var out := FlushAll(CFG, at, [0]);
            && out.put == None && out.logged == None && Quiet(out.end) && OpenIn(out.end.mem, 0) == []
            && out.end.disk.files == at.disk.files[0 := FramesIn(at.disk, 0) + [OpenIn(at.mem, 0)]]
            && out.end.disk.wal == [] && out.end.mem.cat == at.mem.cat.(dirty := false)
            && (at.mem.cat.dirty ==> out.end.disk.saved == Listing(at.mem.cat))
  {
    hide Listing;
    assert [0][..0] == [];
    var flushed := FlushDays(CFG, at, [0]).end;
    assert FlushDays(CFG, at, []) == Done(at, []);
    assert flushed == WriteDay(CFG, at, 0) == FlushDay(at, 0);
    assert flushed.mem.open == map[];
  }

  lemma Opens()
    ensures Reopen(CFG, FRESH.disk) == Done(Point(FRESH.disk, Mem(NO_METRICS, map[], {})), [])
  {
  }

  /** Crashing between two calls loses the memory only. */
  lemma CrashesNow(ss: seq<State>, ls: seq<Label>)
    requires Run(CFG, ss, ls) && |ss| == |ls| + 1 && ss[|ls|].Up?
    ensures Run(CFG, ss + [Down(ss[|ls|].at.disk)], ls + [Crash(FlushOpen([]), 0)])
  {
    hide Run;
    MetricRunGrows(CFG, ss, ls, Crash(FlushOpen([]), 0), Down(ss[|ls|].at.disk));
  }

  lemma Executes(ss: seq<State>, ls: seq<Label>, op: Op) returns (next: seq<State>)
    requires Run(CFG, ss, ls) && |ss| == |ls| + 1 && ss[|ls|].Up? && Timed(op)
    ensures Run(CFG, next, ls + [Exec(op)]) && |next| == |ss| + 1 && next[..|ss|] == ss
    ensures next[|ss|].Up? && next[|ss|].at == Perform(CFG, ss[|ls|].at, op).end
  {
    hide Run, Perform;
    var out := Perform(CFG, ss[|ls|].at, op);
    next := ss + [Up(out.end, ss[|ls|].bare + Bare(out))];
    MetricRunGrows(CFG, ss, ls, Exec(op), next[|ss|]);
  }

  lemma Restarts(ss: seq<State>, ls: seq<Label>) returns (next: seq<State>)
    requires Run(CFG, ss, ls) && |ss| == |ls| + 1 && ss[|ls|].Down? && Reopen(CFG, ss[|ls|].disk).err.None?
    ensures Run(CFG, next, ls + [Restart]) && |next| == |ss| + 1 && next[..|ss|] == ss
    ensures next[|ss|].Up? && next[|ss|].at == Reopen(CFG, ss[|ls|].disk).end
  {
    hide Run, Reopen;
    next := ss + [Up(Reopen(CFG, ss[|ls|].disk).end, multiset{})];
    MetricRunGrows(CFG, ss, ls, Restart, next[|ss|]);
  }

  lemma Begins() returns (ss: seq<State>)
    ensures Run(CFG, ss, [Restart]) && |ss| == 2 && ss[1].Up?
    ensures ss[1].at == Point(FRESH.disk, Mem(NO_METRICS, map[], {}))
  {
    Opens();
    ss := Restarts([FRESH], []);
  }

  // ---------------------------------------------------------------- a log that does not open

  /**
   The run: log two samples of a new metric, crash. The second record carries no name, catalog.json does not have the
   metric yet, and opening fails on it before it names the metric of the first.
   */
  lemma TwoLoggedDoNotOpen() returns (ss: seq<State>, ls: seq<Label>)
    ensures ls == [Restart, Exec(Ingest(Call(A, 10, true))), Exec(Ingest(Call(A, 20, true))), Crash(FlushOpen([]), 0)]
    ensures Run(CFG, ss, ls) && |ss| == 5
    ensures ss[3].Up? && Accepted(CFG, ss[1].at, Ops(ls, 1, 3)) == [Sample(1, 10, 7), Sample(1, 20, 7)]
    ensures ss[4].Down? && Reopen(CFG, ss[4].disk).err == Some(UnknownId)
  {
    hide Run, AddSample, Reopen;
    var first, second := Ingest(Call(A, 10, true)), Ingest(Call(A, 20, true));
    var s2 := Begins();
    Adds(s2[1].at, first.q, 1);
    var s3 := Executes(s2, [Restart], first);
    Adds(s3[2].at, second.q, 1);
    var s4 := Executes(s3, [Restart] + [Exec(first)], second);
    CrashesNow(s4, [Restart] + [Exec(first)] + [Exec(second)]);
    ss := s4 + [Down(s4[3].at.disk)];
    ls := [Restart] + [Exec(first)] + [Exec(second)] + [Crash(FlushOpen([]), 0)];
    assert ls == [Restart, Exec(first), Exec(second), Crash(FlushOpen([]), 0)];
    AcceptedTwo(ss[1].at, first, second);
    assert Ops(ls, 1, 3) == [first, second];
    FailsOnNameless(ss[4].disk);
  }

  lemma FailsOnNameless(d: Disk)
    requires d.saved == [] && |d.wal| == 2 && d.wal[1].Nameless?
    ensures Reopen(CFG, d).err == Some(UnknownId)
  {
    hide Replay;
  }

  lemma AcceptedTwo(at: Point, a: Op, b: Op)
    ensures var first, second := Perform(CFG, at, a), Perform(CFG, Perform(CFG, at, a).end, b);
            first.put.Some? && second.put.Some? ==> Accepted(CFG, at, [a, b]) == [first.put.value, second.put.value]
  {
    hide Perform;
    AcceptedNext(CFG, at, [], a);
    AcceptedNext(CFG, at, [] + [a], b);
    assert [] + [a] + [b] == [a, b];
  }

  // ---------------------------------------------------------------- a logged sample that is lost

  const FIRST: Sample := Sample(1, 10, 7)
  const LATE: Sample := Sample(2, 5, 7)

  lemma PlainText()
    ensures IsText(A) && IsText(B) && IsText(C)
  {
    assert A[1..] == [] && B[1..] == [] && C[1..] == [];
  }

  /** The registry with one metric, named n. */
  function Only(n: MetricName, id: nat, ts: Timestamp): Registry {
    Registry(map[n := Metric(id, INT32_SAMPLE, Some(ts))], map[id := n], true)
  }

  lemma OnlyPins(n: MetricName, id: nat, ts: Timestamp)
    ensures Linked(Only(n, id, ts)) && PinsOf(Only(n, id, ts)) == {Pin(n, id, INT32_SAMPLE)}
  {
    var c := Only(n, id, ts);
    assert PinOf(c, n) == Pin(n, id, INT32_SAMPLE);
    forall p ensures p in PinsOf(c) <==> p == Pin(n, id, INT32_SAMPLE) {
      assert forall x :: x in c.metrics <==> x == n;
    }
  }

  /** Files with one saved metric and the naming record of another open, and the pins are both. */
  lemma OpensWithBoth(d: Disk)
    requires Sound(CFG, d) && d.saved == Listing(Only(A, 1, 10)) && d.wal == [Naming(B, INT32_SAMPLE, LATE)]
    ensures Reopen(CFG, d).err.None?
  {
    hide Sound, Listing, Reopen, Linked, PinsOf;
    PlainText();
    OnlyPins(A, 1, 10);
    ListingPins(Only(A, 1, 10));
    ListingLoads(Only(A, 1, 10));
    ReopensIff(CFG, d);
    LogPinsSnoc([], d.wal[0]);
    assert [] + [d.wal[0]] == d.wal && LogPins([]) == {};
    assert DiskPins(d) == {Pin(A, 1, INT32_SAMPLE), Pin(B, 2, INT32_SAMPLE)};
    assert Agree(DiskPins(d));
  }

  /** Replay skips the record by the watermark of the flushed frame. */
  lemma LateIsSkipped(d: Disk)
    requires Reopen(CFG, d).err.None? && d.files == map[0 := [[FIRST]]]
    ensures LATE !in Stored(Reopen(CFG, d).end, 0)
  {
    hide Reopen, LoggedIn;
    ReopenCounts(CFG, d, LATE);
    assert FramesIn(d, 0) == [[FIRST]] && [[FIRST]][..0] == [];
    assert MaxEnd([]) == None;
    assert Mark([[FIRST]]) == 10;
    assert Flatten([[FIRST]]) == [FIRST] by {
      assert [[FIRST]][1..] == [];
    }
    assert multiset(Stored(Reopen(CFG, d).end, 0))[LATE] == 0;
  }

  /**
   The run: log and accept a sample at time 10, flush, log and accept one of another metric at time 5, crash, reopen.
   The second was acknowledged and was in the log, and is gone.
   */
  lemma LateSampleIsLost() returns (ss: seq<State>, ls: seq<Label>)
    ensures ls == [Restart, Exec(Ingest(Call(A, 10, true))), Exec(FlushOpen([0])), Exec(Ingest(Call(B, 5, true))),
                   Crash(FlushOpen([]), 0), Restart]
    ensures Run(CFG, ss, ls) && |ss| == 7
    ensures ss[3].Up? && AddSample(CFG, ss[3].at, Call(B, 5, true)).put == Some(LATE)
    ensures ss[4].Up? && Naming(B, INT32_SAMPLE, LATE) in ss[4].at.disk.wal && LATE in Stored(ss[4].at, 0)
    ensures ss[6].Up? && LATE !in Stored(ss[6].at, 0)
  {
    hide Run, AddSample, Reopen, FlushAll, Listing, Stored;
    var s5, l4 := UntilLate();
    CrashesNow(s5, l4);
    var s6, l5 := s5 + [Down(s5[4].at.disk)], l4 + [Crash(FlushOpen([]), 0)];
    RestartIsSound(CFG, s6, l5, 5);
    OpensWithBoth(s6[5].disk);
    ss := Restarts(s6, l5);
    LateIsSkipped(s6[5].disk);
    ls := l5 + [Restart];
    assert ss[3] == s6[3] && ss[4] == s6[4];
  }

  lemma UntilLate() returns (ss: seq<State>, ls: seq<Label>)
    ensures ls == [Restart, Exec(Ingest(Call(A, 10, true))), Exec(FlushOpen([0])), Exec(Ingest(Call(B, 5, true)))]
    ensures Run(CFG, ss, ls) && |ss| == 5
    ensures ss[3].Up? && AddSample(CFG, ss[3].at, Call(B, 5, true)).put == Some(LATE)
    ensures ss[4].Up? && LATE in Stored(ss[4].at, 0)
    ensures ss[4].at.disk == Disk(Listing(Only(A, 1, 10)), [Naming(B, INT32_SAMPLE, LATE)], map[0 := [[FIRST]]])
  {
    var first, flush, late := Ingest(Call(A, 10, true)), FlushOpen([0]), Ingest(Call(B, 5, true));
    assert Timed(first) && Timed(flush) && Timed(late);
    hide *;
    var s2 := Begins();
    LatePoints(s2[1].at);
    var s3 := Executes(s2, [Restart], first);
    var s4 := Executes(s3, [Restart] + [Exec(first)], flush);
    ss := Executes(s4, [Restart] + [Exec(first)] + [Exec(flush)], late);
    ls := [Restart] + [Exec(first)] + [Exec(flush)] + [Exec(late)];
    assert ss[3] == ss[..4][3] == s4[3];
  }

  lemma LatePoints(at: Point)
    requires at == Point(FRESH.disk, Mem(NO_METRICS, map[], {}))
    ensures var p1 := Perform(CFG, at, Ingest(Call(A, 10, true))).end;
            var p2 := Perform(CFG, p1, FlushOpen([0])).end;
            var out := Perform(CFG, p2, Ingest(Call(B, 5, true)));
            && out == AddSample(CFG, p2, Call(B, 5, true)) && out.put == Some(LATE) && LATE in Stored(out.end, 0)
            && out.end.disk == Disk(Listing(Only(A, 1, 10)), [Naming(B, INT32_SAMPLE, LATE)], map[0 := [[FIRST]]])
  {
    hide AddSample, FlushAll, Listing, Stored;
    var p1 := AddSample(CFG, at, Call(A, 10, true)).end;
    AddsFirst(at);
    Flushes(p1);
    var p2 := FlushAll(CFG, p1, [0]).end;
    assert FramesIn(p1.disk, 0) == [] && [] + [[FIRST]] == [[FIRST]];
    assert p2.disk == Disk(Listing(Only(A, 1, 10)), [], map[0 := [[FIRST]]]);
    AddsLate(p2);
  }

  lemma AddsFirst(at: Point)
    requires at == Point(FRESH.disk, Mem(NO_METRICS, map[], {}))
    ensures var end := AddSample(CFG, at, Call(A, 10, true)).end;
            Quiet(end) && end.mem.cat == Only(A, 1, 10) && OpenIn(end.mem, 0) == [FIRST]
            && end.disk.files == map[]
  {
    hide AddSample;
    Adds(at, Call(A, 10, true), 1);
    assert [] + [FIRST] == [FIRST];
  }

  lemma AddsLate(at: Point)
    requires Quiet(at) && OpenIn(at.mem, 0) == [] && at.mem.cat == Only(A, 1, 10).(dirty := false) && at.disk.wal == []
    ensures var out := AddSample(CFG, at, Call(B, 5, true));
            && out.put == Some(LATE) && out.end.disk == at.disk.(wal := [Naming(B, INT32_SAMPLE, LATE)])
            && LATE in Stored(out.end, 0)
  {
    hide AddSample, Flatten;
    assert |at.mem.cat.metrics| == 1;
    Adds(at, Call(B, 5, true), 2);
  }

  // ---------------------------------------------------------------- two metrics with one id

  const UNLOGGED: Op := Ingest(Call(A, 50, false))
  const LOGGED: Op := Ingest(Call(B, 100, true))
  const NEWCOMER: Op := Ingest(Call(C, 100, true))
  const AHEAD: Op := Ingest(Call(B, 200, true))
  const FLUSH: Op := FlushOpen([0])
  const BACK: Op := Ingest(Call(B, 150, true))
  const CUT: Label := Crash(FlushOpen([]), 0)
  const GAP_RUN: seq<Label> := [Restart, Exec(UNLOGGED), Exec(LOGGED), CUT, Restart]
  const SHARING: seq<Op> := [NEWCOMER, AHEAD, FLUSH, BACK]
  const SHARED_RUN: seq<Label> := [Exec(NEWCOMER), Exec(AHEAD), Exec(FLUSH), Exec(BACK), CUT]
  const BACKWARDS: Page := [Sample(2, 100, 7), Sample(2, 200, 7), Sample(2, 150, 7)]

  /** Two metrics with id 2; only the second is found by it. */
  function Shared(ts: Timestamp): Registry {
    Registry(map[B := Metric(2, INT32_SAMPLE, Some(100)), C := Metric(2, INT32_SAMPLE, Some(ts))], map[2 := C], true)
  }

  lemma FirstProcess(at: Point)
    requires at == Point(FRESH.disk, Mem(NO_METRICS, map[], {}))
    ensures var p1 := Perform(CFG, at, UNLOGGED).end;
            Perform(CFG, p1, LOGGED).end.disk == Disk([], [Naming(B, INT32_SAMPLE, Sample(2, 100, 7))], map[])
  {
    hide AddSample;
    Adds(at, UNLOGGED.q, 1);
    var p1 := AddSample(CFG, at, UNLOGGED.q).end;
    assert [] + [Sample(1, 50, 7)] == [Sample(1, 50, 7)];
    assert p1.mem.cat == Only(A, 1, 50);
    assert |p1.mem.cat.metrics| == 1;
    Adds(p1, LOGGED.q, 2);
  }

  /** Reopening names B as metric 2 and knows of no metric 1. */
  lemma ReopensWithGap(d: Disk)
    requires d == Disk([], [Naming(B, INT32_SAMPLE, Sample(2, 100, 7))], map[])
    ensures var out := Reopen(CFG, d);
            && out.err == None && out.end.disk == d && out.end.mem.cat == Only(B, 2, 100)
            && Quiet(out.end) && OpenIn(out.end.mem, 0) == [Sample(2, 100, 7)]
  {
    hide IsBlank, IsMetricName, EnsureDay;
    var w := d.wal[0];
    assert d.wal[..0] == [];
    var start := Replay(CFG, d, NO_METRICS, []);
    assert NameRecord(NO_METRICS, w) == Ok(Register(NO_METRICS, B, 2, INT32_SAMPLE)) by {
      assert IsMetricName(B);
      NameOfRecord(w);
    }
    var named := Point(d, Mem(Register(NO_METRICS, B, 2, INT32_SAMPLE), map[], {}));
    assert MarkOf(map[], d, 0) == -1;
    OpensQuietly(named);
    assert Replay(CFG, d, NO_METRICS, d.wal) == ReplayOne(CFG, start, w);
    assert [] + [w.sample] == [w.sample];
  }

  lemma NameOfRecord(w: Logged)
    requires w.Naming? && w.name == B && w.sample.id == 2 && w.valueType == INT32_SAMPLE
    ensures NameRecord(NO_METRICS, w) == Ok(Register(NO_METRICS, B, 2, INT32_SAMPLE))
  {
    assert IsMetricName(w.name);
  }

  /** The new metric takes id 2, and the times of B then go back. */
  lemma SecondProcess(at: Point)
    requires Quiet(at) && at.mem.cat == Only(B, 2, 100) && OpenIn(at.mem, 0) == [Sample(2, 100, 7)]
    ensures var c := Perform(CFG, at, NEWCOMER);
            var ahead := Perform(CFG, c.end, AHEAD);
            var flush := Perform(CFG, ahead.end, FLUSH);
            var back := Perform(CFG, flush.end, BACK);
            && c.put == Some(Sample(2, 100, 7)) && ahead.put == Some(Sample(2, 200, 7)) && flush.put == None
            && back.put == Some(Sample(2, 150, 7))
            && c.end.mem.cat == Shared(100) && back.end.disk.saved == Listing(Shared(200))
  {
    hide AddSample, FlushAll, Listing;
    assert |at.mem.cat.metrics| == 1;
    Adds(at, NEWCOMER.q, 2);
    var c := AddSample(CFG, at, NEWCOMER.q).end;
    assert c.mem.cat == Shared(100);
    Adds(c, AHEAD.q, 2);
    var ahead := AddSample(CFG, c, AHEAD.q).end;
    assert ahead.mem.cat == Shared(200);
    Flushes(ahead);
    Adds(FlushAll(CFG, ahead, [0]).end, BACK.q, 2);
  }

  lemma SharedDoesNotOpen(d: Disk, ts: Timestamp)
    requires d.saved == Listing(Shared(ts))
    ensures Reopen(CFG, d).err.Some?
  {
    hide Listing, Coerce, Load, OpenFrom;
    var c := Shared(ts);
    PlainText();
    CoerceIsIdentityIff(B);
    CoerceIsIdentityIff(C);
    Listed(c, B);
    Listed(c, C);
    var b, d := SavedAs(B, c.metrics[B]), SavedAs(C, c.metrics[C]);
    var i :| 0 <= i < |Listing(c)| && Listing(c)[i] == b;
    var j :| 0 <= j < |Listing(c)| && Listing(c)[j] == d;
    assert b.name != d.name && b.id == d.id;
    LoadsIff(Listing(c));
  }

  /**
   The run: take a sample of A too old for the log, log one of B, crash, reopen. B has id 2 and nobody has id 1, so the
   next metric, C, is given id 2 as well. B's last time is then kept under C: B at 200, a flush, and B at 150 are both
   accepted. The flush saved two metrics with one id, and after the next crash the database does not open.
   */
  lemma GapSharesAnId() returns (ss: seq<State>, ls: seq<Label>)
    ensures ls == GAP_RUN + SHARED_RUN && Run(CFG, ss, ls) && |ss| == 11
    ensures ss[5].Up? && ss[5].at.mem.cat.names == map[2 := B]
    ensures ss[6].Up? && ss[6].at.mem.cat == Shared(100)
    ensures Accepted(CFG, ss[5].at, SHARING) == BACKWARDS
    ensures ss[10].Down? && Reopen(CFG, ss[10].disk).err.Some?
  {
    assert Only(B, 2, 100).names == map[2 := B];
    hide *;
    var s6, l5 := UntilGap();
    SecondProcess(s6[5].at);
    AcceptedFour(s6[5].at, NEWCOMER, AHEAD, FLUSH, BACK);
    ss, ls := UntilShared(s6, l5);
    SharedDoesNotOpen(ss[10].disk, 200);
  }

  lemma UntilGap() returns (ss: seq<State>, ls: seq<Label>)
    ensures ls == GAP_RUN
    ensures Run(CFG, ss, ls) && |ss| == 6 && ss[5].Up?
    ensures ss[5].at.mem.cat == Only(B, 2, 100) && Quiet(ss[5].at) && OpenIn(ss[5].at.mem, 0) == [Sample(2, 100, 7)]
  {
    assert Timed(UNLOGGED) && Timed(LOGGED);
    hide *;
    var s2 := Begins();
    FirstProcess(s2[1].at);
    var s3 := Executes(s2, [Restart], UNLOGGED);
    var s4 := Executes(s3, [Restart] + [Exec(UNLOGGED)], LOGGED);
    var l3 := [Restart] + [Exec(UNLOGGED)] + [Exec(LOGGED)];
    CrashesNow(s4, l3);
    ReopensWithGap(s4[3].at.disk);
    ss := Restarts(s4 + [Down(s4[3].at.disk)], l3 + [Crash(FlushOpen([]), 0)]);
    ls := l3 + [Crash(FlushOpen([]), 0)] + [Restart];
  }

  lemma UntilShared(before: seq<State>, did: seq<Label>) returns (ss: seq<State>, ls: seq<Label>)
    requires Run(CFG, before, did) && |before| == 6 && |did| == 5 && before[5].Up?
    ensures ls == did + SHARED_RUN
    ensures Run(CFG, ss, ls) && |ss| == 11 && ss[5] == before[5]
    ensures var c := Perform(CFG, before[5].at, NEWCOMER).end;
            var end := Perform(CFG, Perform(CFG, Perform(CFG, c, AHEAD).end, FLUSH).end, BACK).end;
            ss[6].Up? && ss[6].at == c && ss[10] == Down(end.disk)
  {
    assert Timed(NEWCOMER) && Timed(AHEAD) && Timed(FLUSH) && Timed(BACK);
    hide *;
    var s2 := ExecutesTwo(before, did, NEWCOMER, AHEAD);
    var l2 := did + [Exec(NEWCOMER), Exec(AHEAD)];
    var s4 := ExecutesTwo(s2, l2, FLUSH, BACK);
    var l4 := l2 + [Exec(FLUSH), Exec(BACK)];
    CrashesNow(s4, l4);
    ss, ls := s4 + [Down(s4[9].at.disk)], l4 + [CUT];
    assert ss[5] == s4[..8][5] && ss[6] == s4[..8][6];
    assert ls == did + SHARED_RUN;
  }

  lemma ExecutesTwo(ss: seq<State>, ls: seq<Label>, a: Op, b: Op) returns (next: seq<State>)
    requires Run(CFG, ss, ls) && |ss| == |ls| + 1 && ss[|ls|].Up? && Timed(a) && Timed(b)
    ensures Run(CFG, next, ls + [Exec(a), Exec(b)]) && |next| == |ss| + 2 && next[..|ss|] == ss
    ensures next[|ss|].Up? && next[|ss|].at == Perform(CFG, ss[|ls|].at, a).end
    ensures next[|ss| + 1].Up? && next[|ss| + 1].at == Perform(CFG, next[|ss|].at, b).end
  {
    hide *;
    var one := Executes(ss, ls, a);
    next := Executes(one, ls + [Exec(a)], b);
    assert ls + [Exec(a)] + [Exec(b)] == ls + [Exec(a), Exec(b)];
    assert next[..|ss|] == next[..|one|][..|ss|];
    assert next[|ss|] == next[..|one|][|ss|];
  }

  lemma KeepsPrefix(s0: seq<State>, s1: seq<State>, s2: seq<State>, s3: seq<State>, s4: seq<State>)
    requires |s1| == |s0| + 1 && |s2| == |s1| + 1 && |s3| == |s2| + 1 && |s4| == |s3| + 1
    requires s1[..|s0|] == s0 && s2[..|s1|] == s1 && s3[..|s2|] == s2 && s4[..|s3|] == s3
    ensures s4[..|s1|] == s1 && s4[..|s0|] == s0
  {
    assert s3[..|s1|] == s3[..|s2|][..|s1|] == s1;
    assert s4[..|s1|] == s4[..|s3|][..|s1|] == s1;
    assert s4[..|s0|] == s4[..|s1|][..|s0|] == s0;
  }

  lemma AcceptedFour(at: Point, a: Op, b: Op, c: Op, d: Op)
    ensures var oa := Perform(CFG, at, a);
            var ob := Perform(CFG, oa.end, b);
            var oc := Perform(CFG, ob.end, c);
            var od := Perform(CFG, oc.end, d);
            oa.put.Some? && ob.put.Some? && oc.put.None? && od.put.Some? ==>
              Accepted(CFG, at, [a, b, c, d]) == [oa.put.value, ob.put.value, od.put.value]
  {
    hide Perform;
    AcceptedNext(CFG, at, [], a);
    AcceptedNext(CFG, at, [] + [a], b);
    AcceptedNext(CFG, at, [] + [a] + [b], c);
    AcceptedNext(CFG, at, [] + [a] + [b] + [c], d);
    assert [] + [a] + [b] + [c] + [d] == [a, b, c, d];
  }

  // ---------------------------------------------------------------- two names that are one in the file

  /** The registry with two metrics. */
  function Pair(a: MetricName, b: MetricName): Registry
    requires a != b
  {
    Registry(map[a := Metric(1, INT32_SAMPLE, Some(10)), b := Metric(2, INT32_SAMPLE, Some(20))], map[1 := a, 2 := b], true)
  }

  lemma PairSavedIff(a: MetricName, b: MetricName)
    requires a != b
    ensures Load(Listing(Pair(a, b))).Ok? <==> Coerce(a) != Coerce(b)
  {
    hide Load, Listing, Coerce;
    var c := Pair(a, b);
    assert IsMetricName(a) && IsMetricName(b);
    assert forall n :: n in c.metrics <==> n == a || n == b;
    SavedLoadsIff(c);
  }

  lemma PairPoints(at: Point, a: MetricName, b: MetricName)
    requires at == Point(FRESH.disk, Mem(NO_METRICS, map[], {})) && a != b
    ensures var p1 := Perform(CFG, at, Ingest(Call(a, 10, true))).end;
            var p2 := Perform(CFG, p1, Ingest(Call(b, 20, true))).end;
            var p3 := Perform(CFG, p2, FLUSH).end;
            p3.disk.saved == Listing(Pair(a, b)) && p3.disk.wal == []
  {
    hide AddSample, FlushAll, Listing, IsBlank;
    Adds(at, Call(a, 10, true), 1);
    var p1 := AddSample(CFG, at, Call(a, 10, true)).end;
    assert p1.mem.cat.metrics == map[a := Metric(1, INT32_SAMPLE, Some(10))];
    assert |p1.mem.cat.metrics| == 1;
    assert OpenIn(p1.mem, 0) == [Sample(1, 10, 7)];
    Adds(p1, Call(b, 20, true), 2);
    var p2 := AddSample(CFG, p1, Call(b, 20, true)).end;
    assert p2.mem.cat == Pair(a, b);
    Flushes(p2);
  }

  /**
   The run, for any two metric names: log a sample of each, flush, crash. Nothing is in the log any more, and the database
   opens if and only if the names are different text once their bytes that are not valid UTF-8 are replaced.
   */
  lemma TwoNamesOpenIff(a: MetricName, b: MetricName) returns (ss: seq<State>, ls: seq<Label>)
    requires a != b
    ensures ls == [Restart, Exec(Ingest(Call(a, 10, true))), Exec(Ingest(Call(b, 20, true))), Exec(FLUSH), CUT]
    ensures Run(CFG, ss, ls) && |ss| == 6 && ss[5].Down?
    ensures Reopen(CFG, ss[5].disk).err.None? <==> Coerce(a) != Coerce(b)
  {
    var first, second := Ingest(Call(a, 10, true)), Ingest(Call(b, 20, true));
    assert Timed(first) && Timed(second) && Timed(FLUSH);
    hide *;
    var s2 := Begins();
    PairPoints(s2[1].at, a, b);
    var s4 := ExecutesTwo(s2, [Restart], first, second);
    var l3 := [Restart] + [Exec(first), Exec(second)];
    var s5 := Executes(s4, l3, FLUSH);
    CrashesNow(s5, l3 + [Exec(FLUSH)]);
    ss, ls := s5 + [Down(s5[4].at.disk)], l3 + [Exec(FLUSH)] + [CUT];
    PairSavedIff(a, b);
    OpensAsLoaded(ss[5].disk);
  }

  lemma OpensAsLoaded(d: Disk)
    requires d.wal == []
    ensures Reopen(CFG, d).err.None? <==> Load(d.saved).Ok?
  {
    hide Load;
  }

  lemma RawByte(n: Name)
    requires |n| == 1 && n[0] >= 0xF8
    ensures IsMetricName(n) && Coerce(n) == REPLACEMENT
  {
    hide IsBlank;
    OneByte(n);
    assert n[1..] == [] && Coerce([]) == [];
    assert RuneLen(n) == 0;
  }

  /** Two such names, a byte each. */
  lemma TwoRawNames() returns (a: MetricName, b: MetricName)
    ensures a == [0xFF] && b == [0xFE] && Coerce(a) == Coerce(b)
  {
    hide IsMetricName, Coerce;
    var x: Name, y: Name := [0xFF], [0xFE];
    RawByte(x);
    RawByte(y);
    a, b := x, y;
  }
}
