/**
 Why runs must be ordered: a concrete run in which an acknowledged event is gone after a crash, because an
 event of another name had already been flushed to the same partition with a later time.
 */
module EventsLateArrival {
  import opened Prelude
  import opened Bytes
  import opened Names
  import opened Codec
  import opened Frames
  import opened EventsCatalog
  import opened EventsWal
  import opened EventsFrames
  import opened EventsEngine
  import opened EventsInvariant
  import opened EventsRuns

  const CFG: Config := Config(_ => 0, Limits(1000, 65536, 0), 4096, Codec(x => x, x => Some(x), _ => 0))
  const A: Name := [65]
  const B: Name := [66]
  const FIRST: Record := Record(1, 10, VALUE_NONE, 0, [])
  const LATE: Record := Record(2, 5, VALUE_NONE, 0, [])
  const ADD_FIRST: Request := Request(A, 10, NoValue, [], 0, false)
  const ADD_LATE: Request := Request(B, 5, NoValue, [], 0, false)

  const START: Point := Point(Disk([], [], map[]), Mem(EMPTY, map[]))

  lemma OpensEmpty()
    ensures Reopen(CFG, START.disk) == Ok(START.mem)
  {
  }

  lemma AssignsNext(c: Catalog, n: Name, r: Record)
    requires |c.events| < 10 && |n| == 1 && n !in c.events && r.id == |c.events| + 1
    ensures Assign(c, n, VALUE_NONE).1 == Ok(r.id)
    ensures var d := Assign(c, n, VALUE_NONE).0;
            && LastTs(d, r.id) == None
            && UpdateLast(d, r.id, r.ts).Ok?
            && UpdateLast(d, r.id, r.ts).value.events.Keys == c.events.Keys + {n}
  {
  }

  /** A call for a name not seen yet, on a database with no page open and no event of that name. */
  lemma AddsNew(at: Point, q: Request, r: Record)
    requires at.mem.open == map[] && |at.mem.cat.events| < 10
    requires |q.name| == 1 && !IsSpace(q.name[0]) && q.name !in at.mem.cat.events
    requires q.value == NoValue && q.payload == [] && q.ts != 0 && !q.aged
    requires r == Record(|at.mem.cat.events| + 1, q.ts, VALUE_NONE, 0, [])
    ensures var out := AddEvent(CFG, at, q);
            && out.err == None && out.logged == Some(r)
            && out.end.mem.open == map[0 := [r]] && out.end.disk.files == at.disk.files
            && out.end.mem.cat.events.Keys == at.mem.cat.events.Keys + {q.name}
  {
    hide Full, MustForceFlush, MaybeReset, Trim, IsBlank, IsSpace, Assign, UpdateLast;
    OneByte(q.name);
    AssignsNext(at.mem.cat, q.name, r);
    StaysOpen(r);
    assert OpenIn(at.mem, 0) + [r] == [r];
  }

  lemma StaysOpen(r: Record)
    requires r.payload == []
    ensures !Full([r], CFG.limits, false) && !MustForceFlush([r], CFG.limits)
  {
    assert PayloadBytes([r]) == 0 by {
      assert [r][..0] == [];
    }
    assert SizeOf([r]) == 15;
    assert CFG.limits == Limits(1000, 65536, 0);
  }

  lemma FitsOne(r: Record)
    requires r.payload == [] && r.valueType == VALUE_NONE
    ensures PageFits(CFG, [r])
  {
    ConcatCons(RecordBytes, r, []);
    assert |PutUvarint(0)| == 1;
  }

  lemma FlushesOne(at: Point, r: Record)
    requires at.mem.open == map[0 := [r]] && at.disk.files == map[]
    requires r.payload == [] && r.valueType == VALUE_NONE
    ensures var out := FlushAll(CFG, at, [0]);
            && out.logged == None && out.end.mem.open == map[] && out.end.disk.files == map[0 := [[r]]]
            && out.end.mem.cat.events == at.mem.cat.events
  {
    FitsOne(r);
    hide Snapshot, PageFits;
    assert [0][..0] == [];
    assert FlushPages(CFG, at, []) == Outcome(None, None, at, []);
    var f := FlushPages(CFG, at, [0]);
    assert f.end == FlushPage(at, 0) && f.err == None;
    assert FramesIn(at.disk, 0) + [[r]] == [[r]];
  }

  /** The run: add an event at time 10 and flush it, add one of another name at time 5, crash, reopen. */
  lemma LateEventIsLost() returns (ss: seq<State>, ls: seq<Label>)
    ensures Run(CFG, ss, ls) && |ss| == 7 && ss[6].Up?
    ensures ss[6].acked[LATE] == 1
    ensures LATE !in Stored(ss[6].at, 0)
  {
    OpensEmpty();
    AddsNew(START, ADD_FIRST, FIRST);
    var p1 := AddEvent(CFG, START, ADD_FIRST).end;
    FlushesOne(p1, FIRST);
    var p2 := FlushAll(CFG, p1, [0]).end;
    assert p2.mem.cat.events.Keys == {A};
    assert |p2.mem.cat.events| == 1;
    AddsNew(p2, ADD_LATE, LATE);
    var p3 := AddEvent(CFG, p2, ADD_LATE).end;
    ss, ls := Arrives(p1, p2, p3);
  }

  lemma Arrives(p1: Point, p2: Point, p3: Point) returns (ss: seq<State>, ls: seq<Label>)
    requires Reopen(CFG, START.disk) == Ok(START.mem)
    requires var o := AddEvent(CFG, START, ADD_FIRST); o.err == None && o.logged == Some(FIRST) && o.end == p1
    requires var o := FlushAll(CFG, p1, [0]); o.logged == None && o.end == p2
    requires var o := AddEvent(CFG, p2, ADD_LATE); o.err == None && o.logged == Some(LATE) && o.end == p3
    requires p3.mem.open == map[0 := [LATE]] && p3.disk.files == map[0 := [[FIRST]]]
    ensures Run(CFG, ss, ls) && |ss| == 7 && ss[6].Up?
    ensures ss[6].acked[LATE] == 1
    ensures LATE !in Stored(ss[6].at, 0)
  {
    hide AddEvent, FlushAll, Reopen;
    var acked1, acked2 := multiset{FIRST}, multiset{FIRST, LATE};
    var five := [FRESH, Up(START, [], multiset{}), Up(p1, [FIRST], acked1), Up(p2, [FIRST], acked1),
                 Up(p3, [FIRST, LATE], acked2)];
    var four := [Restart, Exec(Add(ADD_FIRST)), Exec(Flush([0])), Exec(Add(ADD_LATE))];
    assert Next(CFG, five[0], four[0], five[1]);
    assert Next(CFG, five[1], four[1], five[2]);
    assert Next(CFG, five[2], four[2], five[3]);
    assert Next(CFG, five[3], four[3], five[4]);
    InUtf8();
    ss, ls := LossAfter(five, four);
  }

  lemma InUtf8()
    ensures InText(Add(ADD_FIRST)) && InText(Add(ADD_LATE))
  {
    OneByte(A);
    OneByte(B);
  }

  lemma LossAfter(five: seq<State>, four: seq<Label>) returns (ss: seq<State>, ls: seq<Label>)
    requires Run(CFG, five, four) && |five| == 5 && five[4].Up?
    requires five[4].at.mem.open == map[0 := [LATE]] && five[4].at.disk.files == map[0 := [[FIRST]]]
    requires five[4].acked[LATE] == 1 && AllText(four)
    ensures Run(CFG, ss, ls) && |ss| == 7 && ss[6].Up?
    ensures ss[6].acked[LATE] == 1
    ensures LATE !in Stored(ss[6].at, 0)
  {
    hide Run, Next, Reopen, Snapshot;
    CrashLosesIff(CFG, five, four, 4, 0);
    var d := five[4].at.disk;
    var m := Reopen(CFG, d).value;
    assert Watermark(FramesIn(d, 0)) == Some(10) by {
      assert [[FIRST]][..0] == [];
    }
    assert Above([LATE], Some(10)) == [] by {
      assert [LATE][..0] == [];
    }
    var down := Down(d, five[4].logged, five[4].acked);
    var up := Up(Point(d, m), down.logged, down.acked);
    ss, ls := five + [down, up], four + [Crash(SaveCatalog, 0), Restart];
    LossRun(five, four, down, up, ss, ls);
    assert Flatten([[FIRST]]) == [FIRST] + Flatten([]) by {
      assert [[FIRST]][1..] == [];
    }
  }

  lemma LossRun(five: seq<State>, four: seq<Label>, down: State, up: State, ss: seq<State>, ls: seq<Label>)
    requires Run(CFG, five, four) && |five| == 5 && five[4].Up?
    requires down == Down(five[4].at.disk, five[4].logged, five[4].acked)
    requires Reopen(CFG, down.disk).Ok?
    requires up == Up(Point(down.disk, Reopen(CFG, down.disk).value), down.logged, down.acked)
    requires ss == five + [down, up] && ls == four + [Crash(SaveCatalog, 0), Restart]
    ensures Run(CFG, ss, ls)
  {
    hide Reopen, Perform;
    forall i | 0 <= i < |ls| ensures Next(CFG, ss[i], ls[i], ss[i + 1]) {
      if i < 4 {
        assert Next(CFG, five[i], four[i], five[i + 1]);
      }
    }
  }
}
