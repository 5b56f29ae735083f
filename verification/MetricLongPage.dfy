/**
 A concrete run in which a partition file becomes unreadable: a log full of refused samples is replayed onto one page,
 which is then longer than the record count of a frame can say.
 */
module MetricLongPage {
  import opened Prelude
  import opened Bytes
  import opened Names
  import opened Codec
  import opened Samples
  import opened Recompact
  import opened MetricRegistry
  import opened MetricEngine
  import opened MetricInvariant
  import opened MetricIngest
  import opened MetricReplay
  import opened MetricReplayPages
  import opened MetricRuns
  import opened MetricRecovery
  import opened MetricWidths
  import opened MetricReadable
  import opened MetricCrashRuns

  const A_FIRST: Sample := Sample(1, 10, 7)
  const B_FIRST: Sample := Sample(2, 10, 7)
  const A_AHEAD: Sample := Sample(1, 100, 7)
  const B_REFUSED: Sample := Sample(2, 50, 7)

  const ADD_A: Op := Ingest(Call(A, 10, true))
  const ADD_B: Op := Ingest(Call(B, 10, true))
  const ADD_AHEAD: Op := Ingest(Call(A, 100, true))
  const REFUSED: Op := Ingest(Call(B, 50, true))
  const ADD_LATER: Op := Ingest(Call(C, 100, true))

  const OPENING: seq<Label> := [Restart, Exec(ADD_A), Exec(ADD_B), Exec(FLUSH), Exec(ADD_AHEAD)]

  function Times<T>(x: T, n: nat): (s: seq<T>)
    ensures |s| == n
  {
    seq(n, _ => x)
  }

  lemma TimesNext<T>(x: T, n: nat)
    ensures Times(x, n + 1) == Times(x, n) + [x]
  {
  }

  /** Both metrics, with the times they were last given. */
  function Both(a: Timestamp, b: Timestamp): Registry {
    Registry(map[A := Metric(1, INT32_SAMPLE, Some(a)), B := Metric(2, INT32_SAMPLE, Some(b))], map[1 := A, 2 := B], false)
  }

  /** Before the refusals: one page written, the next one started at a later time. */
  ghost predicate Ready(at: Point, n: nat) {
    && Quiet(at) && 0 in at.mem.open && OpenIn(at.mem, 0) == [A_AHEAD] && at.mem.cat == Both(100, 10)
    && at.disk == Disk(Listing(Both(10, 10)), [Nameless(A_AHEAD)] + Times(Nameless(B_REFUSED), n), map[0 := [[A_FIRST, B_FIRST]]])
  }

  // ---------------------------------------------------------------- until the crash

  lemma OpeningPoints(at: Point)
    requires at == Point(FRESH.disk, Mem(NO_METRICS, map[], {}))
    ensures var p1 := Perform(CFG, at, ADD_A).end;
            var p2 := Perform(CFG, p1, ADD_B).end;
            var p3 := Perform(CFG, p2, FLUSH).end;
            Ready(Perform(CFG, p3, ADD_AHEAD).end, 0)
  {
    hide AddSample, FlushAll, Listing;
    AddsFirst(at);
    var p1 := AddSample(CFG, at, ADD_A.q).end;
    assert |p1.mem.cat.metrics| == 1;
    Adds(p1, ADD_B.q, 2);
    var p2 := AddSample(CFG, p1, ADD_B.q).end;
    assert [A_FIRST] + [B_FIRST] == [A_FIRST, B_FIRST];
    assert p2.mem.cat == Both(10, 10).(dirty := true);
    Flushes(p2);
    var p3 := FlushAll(CFG, p2, [0]).end;
    SameListing(p2.mem.cat, Both(10, 10));
    assert FramesIn(p2.disk, 0) == [] && [] + [[A_FIRST, B_FIRST]] == [[A_FIRST, B_FIRST]];
    Adds(p3, ADD_AHEAD.q, 1);
    assert [] + [A_AHEAD] == [A_AHEAD] && [] + [Nameless(A_AHEAD)] == [Nameless(A_AHEAD)];
    assert [Nameless(A_AHEAD)] + Times(Nameless(B_REFUSED), 0) == [Nameless(A_AHEAD)];
  }

  lemma SameListing(c: Registry, d: Registry)
    requires c.metrics == d.metrics
    ensures Listing(c) == Listing(d)
  {
  }

  /** The page refuses the sample, and the log has it. */
  lemma RefusesOne(at: Point, n: nat)
    requires Ready(at, n)
    ensures var out := Perform(CFG, at, REFUSED);
            out.put == None && out.err == Some(OutOfOrder) && Ready(out.end, n + 1)
  {
    hide Listing, AfterPut, WriteDay, WriteTrail, SealDay;
    TimesNext(Nameless(B_REFUSED), n);
    var w := Nameless(B_REFUSED);
    assert [Nameless(A_AHEAD)] + Times(w, n) + [w] == [Nameless(A_AHEAD)] + Times(w, n + 1);
  }

  lemma {:induction false} RefusesMany(before: seq<State>, did: seq<Label>, n: nat) returns (ss: seq<State>)
    requires Run(CFG, before, did) && |before| == |did| + 1 && before[|did|].Up? && Ready(before[|did|].at, 0)
    ensures Run(CFG, ss, did + Times(Exec(REFUSED), n)) && |ss| == |before| + n && ss[..|before|] == before
    ensures ss[|did| + n].Up? && Ready(ss[|did| + n].at, n)
  {
    hide Run, Ready, Perform;
    if n == 0 {
      ss := before;
      assert did + Times(Exec(REFUSED), 0) == did;
    } else {
      var init := RefusesMany(before, did, n - 1);
      TimesNext(Exec(REFUSED), n - 1);
      RefusesOne(init[|did| + n - 1].at, n - 1);
      ss := Executes(init, did + Times(Exec(REFUSED), n - 1), REFUSED);
      assert did + Times(Exec(REFUSED), n - 1) + [Exec(REFUSED)] == did + Times(Exec(REFUSED), n);
      assert ss[..|before|] == ss[..|init|][..|before|];
    }
  }

  lemma UntilReady() returns (ss: seq<State>)
    ensures Run(CFG, ss, OPENING) && |ss| == 6 && ss[5].Up? && Ready(ss[5].at, 0)
  {
    assert Timed(ADD_A) && Timed(ADD_B) && Timed(FLUSH) && Timed(ADD_AHEAD);
    hide *;
    var s2 := Begins();
    OpeningPoints(s2[1].at);
    var s3 := Executes(s2, [Restart], ADD_A);
    var s4 := Executes(s3, [Restart] + [Exec(ADD_A)], ADD_B);
    var s5 := Executes(s4, [Restart] + [Exec(ADD_A)] + [Exec(ADD_B)], FLUSH);
    ss := Executes(s5, [Restart] + [Exec(ADD_A)] + [Exec(ADD_B)] + [Exec(FLUSH)], ADD_AHEAD);
    assert [Restart] + [Exec(ADD_A)] + [Exec(ADD_B)] + [Exec(FLUSH)] + [Exec(ADD_AHEAD)] == OPENING;
  }

  // ---------------------------------------------------------------- the runs of the log

  lemma {:induction false} AboveTimes(n: nat, mark: Timestamp)
    requires mark == 10
    ensures AboveIn(CFG, [Nameless(A_AHEAD)] + Times(Nameless(B_REFUSED), n), 0, mark) == [A_AHEAD] + Times(B_REFUSED, n)
  {
    var w := Nameless(B_REFUSED);
    var ws := [Nameless(A_AHEAD)] + Times(w, n);
    if n == 0 {
      assert ws == [Nameless(A_AHEAD)] && ws[..0] == [];
      assert [A_AHEAD] + Times(B_REFUSED, 0) == [A_AHEAD];
      assert AboveIn(CFG, [], 0, mark) == [] && [] + [A_AHEAD] == [A_AHEAD];
    } else {
      AboveTimes(n - 1, mark);
      assert ws[..|ws| - 1] == [Nameless(A_AHEAD)] + Times(w, n - 1);
      assert [A_AHEAD] + Times(B_REFUSED, n - 1) + [B_REFUSED] == [A_AHEAD] + Times(B_REFUSED, n);
    }
  }

  lemma {:induction false} RisesTimes(n: nat)
    requires n >= 1
    ensures Rises([A_AHEAD] + Times(B_REFUSED, n)) == [[A_AHEAD], Times(B_REFUSED, n)]
  {
    hide Rises;
    RisesSnoc([A_AHEAD] + Times(B_REFUSED, n - 1), B_REFUSED);
    TimesNext(B_REFUSED, n - 1);
    assert [A_AHEAD] + Times(B_REFUSED, n) == [A_AHEAD] + Times(B_REFUSED, n - 1) + [B_REFUSED];
    if n == 1 {
      assert [A_AHEAD] + Times(B_REFUSED, 0) == [A_AHEAD];
      RisesOne(A_AHEAD);
      assert Times(B_REFUSED, 1) == [B_REFUSED];
    } else {
      RisesTimes(n - 1);
      TimesEnd(n - 1);
    }
  }

  lemma TimesEnd(n: nat)
    requires n >= 1
    ensures Continued([[A_AHEAD], Times(B_REFUSED, n)], B_REFUSED) == [[A_AHEAD], Times(B_REFUSED, n) + [B_REFUSED]]
  {
    assert Times(B_REFUSED, n)[n - 1] == B_REFUSED;
  }

  lemma RisesOne(s: Sample)
    ensures Rises([s]) == [[s]]
  {
    assert [s][..0] == [] && Rises([]) == [];
  }

  lemma LogRuns(d: Disk, n: nat)
    requires n >= 1 && d.files == map[0 := [[A_FIRST, B_FIRST]]]
    requires d.wal == [Nameless(A_AHEAD)] + Times(Nameless(B_REFUSED), n)
    ensures RunsIn(CFG, d, 0) == [[A_AHEAD], Times(B_REFUSED, n)]
  {
    hide Rises, AboveIn, Times;
    var pages := [[A_FIRST, B_FIRST]];
    assert FramesIn(d, 0) == pages && pages[..0] == [];
    assert MaxEnd([]) == None;
    assert Mark(pages) == 10;
    assert d.wal[..|d.wal|] == d.wal;
    AboveTimes(n, 10);
    RisesTimes(n);
  }

  // ---------------------------------------------------------------- opening it

  lemma BothPins(a: Timestamp, b: Timestamp)
    ensures Linked(Both(a, b)) && PinsOf(Both(a, b)) == {Pin(A, 1, INT32_SAMPLE), Pin(B, 2, INT32_SAMPLE)}
    ensures Savable(Both(a, b))
  {
    PlainText();
    var c := Both(a, b);
    assert PinOf(c, A) == Pin(A, 1, INT32_SAMPLE) && PinOf(c, B) == Pin(B, 2, INT32_SAMPLE);
    forall p ensures p in PinsOf(c) <==> p in {Pin(A, 1, INT32_SAMPLE), Pin(B, 2, INT32_SAMPLE)} {
      assert forall x :: x in c.metrics <==> x == A || x == B;
    }
    hide IsText;
    assert forall x :: x in c.metrics <==> x == A || x == B;
  }

  lemma NamelessPins(ws: seq<Logged>)
    requires forall w :: w in ws ==> w.Nameless?
    ensures LogPins(ws) == {}
  {
  }

  lemma Opens(d: Disk, n: nat)
    requires Sound(CFG, d) && d.saved == Listing(Both(10, 10))
    requires d.wal == [Nameless(A_AHEAD)] + Times(Nameless(B_REFUSED), n)
    ensures Reopen(CFG, d).err.None?
    ensures PinsOf(Reopen(CFG, d).end.mem.cat) == {Pin(A, 1, INT32_SAMPLE), Pin(B, 2, INT32_SAMPLE)}
  {
    hide Sound, Listing, Reopen, Linked, PinsOf, Savable, LogPins, SavedPins, Loadable, Agree, HasId;
    var c := Both(10, 10);
    BothPins(10, 10);
    ListingPins(c);
    ListingLoads(c);
    PinsGive(c);
    NamelessPins(d.wal);
    var pins := {Pin(A, 1, INT32_SAMPLE), Pin(B, 2, INT32_SAMPLE)};
    HasBoth(pins);
    forall i | 0 <= i < |d.wal| && d.wal[i].Nameless? ensures HasId(SavedPins(d.saved), d.wal[i].sample.id) {
      assert d.wal[i] == Nameless(A_AHEAD) || d.wal[i] == Nameless(B_REFUSED);
    }
    assert pins + {} == pins;
    ReopensIff(CFG, d);
  }

  lemma HasBoth(pins: set<Pin>)
    requires Pin(A, 1, INT32_SAMPLE) in pins && Pin(B, 2, INT32_SAMPLE) in pins
    ensures HasId(pins, 1) && HasId(pins, 2)
  {
  }

  lemma OnlyTwo(c: Registry)
    requires PinsOf(c) == {Pin(A, 1, INT32_SAMPLE), Pin(B, 2, INT32_SAMPLE)}
    ensures C !in c.metrics && |c.metrics| <= 2
  {
    forall n | n in c.metrics ensures n == A || n == B {
      assert PinOf(c, n) in PinsOf(c);
    }
    var two: set<Name> := {A, B};
    assert c.metrics.Keys <= two;
    SubsetSize(c.metrics.Keys, two);
    assert |c.metrics| == |c.metrics.Keys|;
  }

  /** The opened database takes one more sample, and a flush writes the page it is on. */
  lemma TakesOneMore(codec: Codec, d: Disk, n: nat)
    requires Capable(codec) && n > MAX_PAGE_RECORDS && Sound(CFG, d) && SaneDisk(d)
    requires d == Disk(Listing(Both(10, 10)), [Nameless(A_AHEAD)] + Times(Nameless(B_REFUSED), n), map[0 := [[A_FIRST, B_FIRST]]])
    ensures Reopen(CFG, d).err.None?
    ensures var taken := Perform(CFG, Reopen(CFG, d).end, ADD_LATER);
            var end := Perform(CFG, taken.end, FLUSH).end;
            taken.put.Some? && taken.put.value in Stored(end, 0) && ReadBack(codec, end.disk, 0) == None
  {
    hide Sound, Listing, Reopen, SaneDisk, Capable, ReadBack, PinsOf, Perform, Inv, Times, Sane, RunsUpTo;
    Opens(d, n);
    LogRuns(d, n);
    OpenedRuns(CFG, d, 0);
    ReopenIsSafe(CFG, d);
    var at := Reopen(CFG, d).end;
    var runs := RunsIn(CFG, d, 0);
    assert Tail(runs) == Times(B_REFUSED, n);
    EndOfTimes(n);
    OnlyTwo(at.mem.cat);
    IsTaken(at);
    BothOps(at);
    var ops := [ADD_LATER, FLUSH];
    ReopenSane(CFG, d);
    ProcessStores(CFG, at, multiset{}, ops);
    FlushedAll(at, Perform(CFG, at, ADD_LATER).end);
    FineProcess(CFG, at, ops);
    FineAt(CFG, at, After(CFG, at, ops), 0);
    WroteIt(at, After(CFG, at, ops));
    ReopenedProcessReads(CFG, codec, d, ops, 0);
  }

  lemma EndOfTimes(n: nat)
    requires n >= 1
    ensures Times(B_REFUSED, n) != [] && EndOf(Times(B_REFUSED, n)) == 50
  {
  }

  lemma IsTaken(at: Point)
    requires C !in at.mem.cat.metrics && |at.mem.cat.metrics| <= 2 && at.mem.sealed == {}
    requires OpenIn(at.mem, 0) != [] && EndOf(OpenIn(at.mem, 0)) == 50
    ensures Perform(CFG, at, ADD_LATER).put.Some? && Perform(CFG, at, ADD_LATER).put.value.ts == 100
  {
    hide AddSample;
    AcceptedIff(CFG, at, ADD_LATER.q);
    AddSampleCat(CFG, at, ADD_LATER.q);
  }

  lemma BothOps(at: Point)
    requires Perform(CFG, at, ADD_LATER).put.Some?
    ensures var ops, taken := [ADD_LATER, FLUSH], Perform(CFG, at, ADD_LATER);
            && AllTimed(ops) && After(CFG, at, ops) == Perform(CFG, taken.end, FLUSH).end
            && taken.put.value in InPart(CFG, Accepted(CFG, at, ops), 0)
  {
    hide AddSample, FlushAll;
    AcceptedNext(CFG, at, [], ADD_LATER);
    AcceptedNext(CFG, at, [] + [ADD_LATER], FLUSH);
    assert [] + [ADD_LATER] + [FLUSH] == [ADD_LATER, FLUSH];
    var taken := Perform(CFG, at, ADD_LATER);
    FlushAllCat(CFG, taken.end, [0]);
    assert Accepted(CFG, at, [ADD_LATER, FLUSH]) == [] + [taken.put.value] + [];
    assert [taken.put.value][..0] == [];
    assert [] + [taken.put.value] + [] == [taken.put.value];
    assert InPart(CFG, [], 0) == [];
  }

  /** After a flush of its partition no page is open. */
  lemma FlushedAll(at: Point, mid: Point)
    ensures OpenIn(Perform(CFG, mid, FLUSH).end.mem, 0) == []
  {
    hide WriteDay, MaybeReset, Save;
    assert [0][..0] == [];
    assert FlushDays(CFG, mid, []) == Done(mid, []);
    WriteFiles(CFG, mid, 0);
    var flushed := FlushDays(CFG, mid, [0]).end;
    ResetStores(CFG, flushed);
    SavesOpen(MaybeReset(CFG, flushed));
  }

  lemma SavesOpen(at: Point)
    ensures SaveIfDirty(at).mem.open == at.mem.open
  {
    hide Listing;
  }

  /** With nothing open at the end, the page open at the start has been written. */
  lemma WroteIt(at: Point, end: Point)
    requires Sized(CFG, at, end, 0, true) && OpenIn(at.mem, 0) != [] && OpenIn(end.mem, 0) == []
    ensures |FramesIn(end.disk, 0)| > |FramesIn(at.disk, 0)|
  {
    hide Capacity;
  }

  // ---------------------------------------------------------------- the whole run

  const LATER: seq<Label> := [CUT, Restart, Exec(ADD_LATER), Exec(FLUSH)]

  /**
   The run, for any n of 65536 or more: write a page, start the next one at a later time, let it refuse n samples, crash,
   reopen, take one more sample, flush. Replay puts the n refused samples on one page; the sample taken after it goes to
   the same page, and the frame written for it decodes for no codec: the file that was readable before no longer is, and
   the acknowledged sample cannot be read.
   */
  lemma LongPageIsUnreadable(codec: Codec, n: nat) returns (ss: seq<State>, ls: seq<Label>)
    requires Capable(codec) && n > MAX_PAGE_RECORDS
    ensures CFG.Valid() && ls == OPENING + Times(Exec(REFUSED), n) + LATER && Run(CFG, ss, ls) && |ss| == n + 10
    ensures ss[n + 5].Up? && ReadBack(codec, ss[n + 5].at.disk, 0) == Some([A_FIRST, B_FIRST])
    ensures ss[n + 7].Up? && Perform(CFG, ss[n + 7].at, ADD_LATER).put.Some?
    ensures ss[n + 9].Up? && Perform(CFG, ss[n + 7].at, ADD_LATER).put.value in Stored(ss[n + 9].at, 0)
    ensures ReadBack(codec, ss[n + 9].at.disk, 0) == None
  {
    hide Run, Perform, Reopen, ReadBack, Capable, Stored, Ready, Times, Listing;
    var s6 := UntilReady();
    var sn := RefusesMany(s6, OPENING, n);
    var l1 := OPENING + Times(Exec(REFUSED), n);
    ReadyReads(codec, sn, l1, n);
    CrashesNow(sn, l1);
    var d := sn[n + 5].at.disk;
    var s7, l2 := sn + [Down(d)], l1 + [CUT];
    RestartIsSound(CFG, s7, l2, n + 6);
    RunSane(CFG, s7, l2, n + 6);
    ReadyDisk(sn[n + 5].at, n);
    TakesOneMore(codec, d, n);
    var s8 := Restarts(s7, l2);
    var s9 := Executes(s8, l2 + [Restart], ADD_LATER);
    ss := Executes(s9, l2 + [Restart] + [Exec(ADD_LATER)], FLUSH);
    ls := l2 + [Restart] + [Exec(ADD_LATER)] + [Exec(FLUSH)];
    KeptInRun(sn, s7, s8, s9, ss);
  }

  lemma KeptInRun(s0: seq<State>, s1: seq<State>, s2: seq<State>, s3: seq<State>, s4: seq<State>)
    requires |s1| == |s0| + 1 && |s2| == |s1| + 1 && |s3| == |s2| + 1 && |s4| == |s3| + 1 && |s0| >= 1
    requires s1[..|s0|] == s0 && s2[..|s1|] == s1 && s3[..|s2|] == s2 && s4[..|s3|] == s3
    ensures s4[|s0| - 1] == s0[|s0| - 1] && s4[|s1|] == s2[|s1|]
  {
    KeepsPrefix(s0, s1, s2, s3, s4);
    assert s4[|s0| - 1] == s4[..|s0|][|s0| - 1];
    assert s4[|s1|] == s4[..|s3|][|s1|] == s3[..|s2|][|s1|];
  }

  lemma ReadyDisk(at: Point, n: nat)
    requires Ready(at, n)
    ensures at.disk == Disk(Listing(Both(10, 10)), [Nameless(A_AHEAD)] + Times(Nameless(B_REFUSED), n), map[0 := [[A_FIRST, B_FIRST]]])
  {
  }

  lemma ReadyReads(codec: Codec, ss: seq<State>, ls: seq<Label>, n: nat)
    requires Capable(codec) && Run(CFG, ss, ls) && |ss| == n + 6 && ss[n + 5].Up? && Ready(ss[n + 5].at, n)
    ensures ReadBack(codec, ss[n + 5].at.disk, 0) == Some([A_FIRST, B_FIRST])
  {
    hide Run, ReadBack, Capable, Times, Listing;
    RunReadsIff(CFG, codec, ss, ls, n + 5, 0);
    var pages := [[A_FIRST, B_FIRST]];
    assert FramesIn(ss[n + 5].at.disk, 0) == pages && pages[1..] == [];
    assert Flatten(pages) == [A_FIRST, B_FIRST];
  }
}
