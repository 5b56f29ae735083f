/**
 What becomes of event names that are not valid UTF-8: events.json cannot hold them, so a saved one comes back as
 another name, or the database does not open again.
 */
module EventsUnreadable {
  import opened Prelude
  import opened Bytes
  import opened Names
  import opened Codec
  import opened Frames
  import opened EventsCatalog
  import opened EventsWal
  import opened EventsFrames
  import opened EventsEngine
  import opened EventsInvariant
  import opened EventsRuns
  import opened EventsLateArrival

  // ---------------------------------------------------------------- a registry saved over its log

  /** Records ingest can have written. */
  ghost predicate Loggable(ws: seq<WalRecord>) {
    forall i :: 0 <= i < |ws| ==> ValidRecord(ws[i].rec) && |ws[i].name| <= MAX_NAME_LEN
  }

  lemma DecodingKeepsNames(body: bytes, c: Catalog, id: nat)
    requires DecodeBody(body, c).Ok? && id in c.names
    ensures id in DecodeBody(body, c).value.1.names && DecodeBody(body, c).value.1.names[id] == c.names[id]
  {
    hide Trim, Uvarint, LEVal, Sub, TsVal;
  }

  lemma ConflictIsRefused(w: WalRecord, c: Catalog)
    requires ValidRecord(w.rec) && 0 < |w.name| <= MAX_NAME_LEN
    requires w.rec.id in c.names && c.names[w.rec.id] != w.name
    ensures DecodeBody(Body(w), c).Err?
  {
    hide LE, LETs, LEVal, TsVal, Sub, Uvarint, Trim;
    var t := ValuePart(w.rec) + PayloadPart(w.rec);
    assert Body(w) == Head(w) + t;
    HeadFields(w, t);
    NewFields(w, t);
  }

  /** A log whose naming record disagrees with the registry it is read against is refused. */
  lemma {:induction false} ConflictStopsScan(ws: seq<WalRecord>, c: Catalog, k: nat)
    requires Loggable(ws) && k < |ws| && ws[k].name != []
    requires ws[k].rec.id in c.names && c.names[ws[k].rec.id] != ws[k].name
    ensures Scan(EncodeAll(ws), c).Failed?
    decreases k
  {
    hide NextBody, DecodeBody, Encode, Body, ValidRecord;
    var w, rest := ws[0], ws[1..];
    ConcatCons(Encode, w, rest);
    assert ws == [w] + rest;
    NextBodyWhole(w, EncodeAll(rest));
    if k == 0 {
      ConflictIsRefused(w, c);
    } else if DecodeBody(Body(w), c).Ok? {
      assert (Encode(w) + EncodeAll(rest))[|Encode(w)|..] == EncodeAll(rest);
      DecodingKeepsNames(Body(w), c, ws[k].rec.id);
      ConflictStopsScan(rest, DecodeBody(Body(w), c).value.1, k - 1);
    }
  }

  /**
   Once the registry is saved while the log still holds the record that named an event, a crash leaves a database
   that opens only if that name is valid UTF-8, whatever else the log and the registry hold.
   */
  lemma SavedOverLogFails(cfg: Config, d: Disk, c: Catalog, k: nat)
    requires Dense(c) && d.snapshot == Snapshot(c) && Loggable(d.wal)
    requires k < |d.wal| && d.wal[k].name != [] && !IsText(d.wal[k].name)
    requires d.wal[k].rec.id in c.names && c.names[d.wal[k].rec.id] == d.wal[k].name
    ensures Reopen(cfg, d).Err?
  {
    hide Load, Scan, EncodeAll, Snapshot, Coerce;
    SavedLoadsIff(c);
    if Load(d.snapshot).Ok? {
      CoerceIsIdentityIff(d.wal[k].name);
      ConflictStopsScan(d.wal, Load(d.snapshot).value, k);
    }
  }

  // ---------------------------------------------------------------- one event, one save, one crash

  /** A call that logs its event on an empty database and leaves it on its open page. */
  ghost predicate StaysLogged(cfg: Config, q: Request) {
    AddEvent(cfg, START, q).logged.Some? && AddEvent(cfg, START, q).end.disk.wal != []
  }

  lemma AfterLogStays(cfg: Config, logged: Point, rec: Record, aged: bool)
    requires logged.mem.open == map[cfg.part(rec.ts) := [rec]]
    requires AfterLog(cfg, logged, rec, aged).end.disk.wal != []
    ensures AfterLog(cfg, logged, rec, aged).end == logged
  {
    hide Full, MustForceFlush, PageFits, Snapshot;
  }

  /** The registry of a database with its first event. */
  ghost function First(q: Request): Catalog {
    Noted(Assign(EMPTY, Trim(q.name), TypeOfValue(q.value)).0, 1, RecordOf(q, 1).ts)
  }

  lemma FirstIsDense(q: Request)
    requires Trim(q.name) != [] && |Trim(q.name)| <= MAX_NAME_LEN
    ensures Assign(EMPTY, Trim(q.name), TypeOfValue(q.value)).1 == Ok(1)
    ensures Dense(First(q)) && First(q).names == map[1 := Trim(q.name)] && First(q).dirty
  {
    hide Trim;
    TrimmedIsValid(q.name);
    var c := Assign(EMPTY, Trim(q.name), TypeOfValue(q.value)).0;
    AssignKeepsDense(EMPTY, Trim(q.name), TypeOfValue(q.value));
    UpdateLastKeepsPins(c, 1, RecordOf(q, 1).ts);
  }

  lemma FirstIsLogged(cfg: Config, q: Request)
    requires StaysLogged(cfg, q)
    ensures var at, name := AddEvent(cfg, START, q).end, Trim(q.name);
            && at.disk.wal == [WalRecord(name, RecordOf(q, 1))] && 0 < |name| <= MAX_NAME_LEN
            && |q.payload| <= cfg.maxPayload
            && Dense(at.mem.cat) && at.mem.cat.names == map[1 := name] && at.mem.cat.dirty
  {
    hide Trim, AfterLog, Assign, TypeOfValue, UpdateLast, RecordOf;
    assert Dense(EMPTY);
    AddCases(cfg, START, q);
    FirstIsDense(q);
    hide Dense, Noted;
    var w := WalRecord(Trim(q.name), RecordOf(q, 1));
    assert [] + [w] == [w] && OpenIn(START.mem, cfg.part(w.rec.ts)) + [w.rec] == [w.rec];
    AfterLogStays(cfg, LogRecord(cfg, START, First(q), w), w.rec, q.aged);
  }

  /**
   The run of one event on an empty database, a save of the registry and a crash: reopening succeeds exactly when the
   event's name is valid UTF-8.
   */
  lemma OneNameReopensIff(cfg: Config, q: Request) returns (ss: seq<State>, ls: seq<Label>)
    requires cfg.Valid() && StaysLogged(cfg, q)
    ensures ls == [Restart, Exec(Add(q)), Exec(SaveCatalog), Crash(SaveCatalog, 0)] && Run(cfg, ss, ls)
    ensures |ss| == 5 && ss[4].Down? && |ss[4].logged| == 1
    ensures Reopen(cfg, ss[4].disk).Ok? <==> IsText(Trim(q.name))
  {
    hide AddEvent, Reopen, Snapshot, Run, Trim, IsBlank, Dense, IsText, StaysLogged;
    FirstIsLogged(cfg, q);
    ss, ls := OneNameRun(cfg, q);
    var at := AddEvent(cfg, START, q).end;
    if IsText(Trim(q.name)) {
      assert InText(Add(q)) && InText(SaveCatalog);
      hide InText;
      assert AllText(ls);
      AnyRunRecovers(cfg, ss, ls, 4);
    } else {
      assert ss[4].disk == Save(at).end.disk;
      SavedOverLogFails(cfg, ss[4].disk, at.mem.cat, 0);
    }
  }

  lemma OpensAnyEmpty(cfg: Config)
    ensures Reopen(cfg, START.disk) == Ok(START.mem)
  {
  }

  lemma OneNameRun(cfg: Config, q: Request) returns (ss: seq<State>, ls: seq<Label>)
    requires StaysLogged(cfg, q)
    ensures ls == [Restart, Exec(Add(q)), Exec(SaveCatalog), Crash(SaveCatalog, 0)] && Run(cfg, ss, ls)
    ensures |ss| == 5 && ss[4].Down? && |ss[4].logged| == 1
    ensures ss[4].disk == Save(AddEvent(cfg, START, q).end).end.disk
  {
    OpensAnyEmpty(cfg);
    hide AddEvent, Reopen, Snapshot;
    var out := AddEvent(cfg, START, q);
    var acked := if out.err.None? then multiset(Log(out)) else multiset{};
    var saved := Save(out.end).end;
    ls := [Restart, Exec(Add(q)), Exec(SaveCatalog), Crash(SaveCatalog, 0)];
    ss := [FRESH, Up(START, [], multiset{}), Up(out.end, Log(out), acked), Up(saved, Log(out), acked),
           Down(saved.disk, Log(out), acked)];
    assert Next(cfg, ss[0], ls[0], ss[1]);
    assert Next(cfg, ss[1], ls[1], ss[2]);
    assert Next(cfg, ss[2], ls[2], ss[3]);
    assert Next(cfg, ss[3], ls[3], ss[4]);
  }

  // ---------------------------------------------------------------- two names that are one in the file

  /** One byte that is not valid UTF-8. */
  const RAW: Name := [0xFF]
  const ADD_RAW: Request := Request(RAW, 10, NoValue, [], 0, false)
  const ADD_AGAIN: Request := Request(RAW, 20, NoValue, [], 0, false)

  lemma RawReadsAsReplacement()
    ensures !IsText(RAW) && IsText(REPLACEMENT) && Coerce(RAW) == REPLACEMENT && Coerce(REPLACEMENT) == REPLACEMENT
  {
    assert RAW[1..] == [] && Coerce([]) == [];
    assert RuneLen(REPLACEMENT) == 3 && REPLACEMENT[3..] == [];
    CoerceIsIdentityIff(REPLACEMENT);
  }

  lemma FlushSaves(at: Point, r: Record)
    requires at.mem.open == map[0 := [r]] && at.disk.files == map[] && at.mem.cat.dirty
    requires r.payload == [] && r.valueType == VALUE_NONE
    ensures var end := FlushAll(CFG, at, [0]).end;
            end.disk.snapshot == Snapshot(at.mem.cat) && end.disk.wal == []
  {
    FitsOne(r);
    hide Snapshot, PageFits;
    assert [0][..0] == [];
    assert FlushPages(CFG, at, []) == Outcome(None, None, at, []);
    var f := FlushPages(CFG, at, [0]);
    assert f.end == FlushPage(at, 0) && f.err == None;
  }

  lemma OneEntryHeld(es: seq<DiskEntry>, m: Catalog)
    requires |es| == 1 && Holds(es, m) && 1 in m.names && m.names[1] == REPLACEMENT
    ensures m.names == map[1 := REPLACEMENT] && m.events.Keys == {REPLACEMENT} && |m.events| == 1
  {
    hide Pinned;
    var e := es[0];
    assert es == [e];
    assert IdSet(es) == {e.id} && NameSet(es) == {e.name};
    assert e.id == 1;
    assert Pinned(m, e);
    NamedByPin(m, e);
  }

  lemma NamedByPin(m: Catalog, e: DiskEntry)
    requires Pinned(m, e)
    ensures m.names[e.id] == e.name
  {
  }

  lemma NoLog(d: Disk)
    requires d.wal == [] && Load(d.snapshot).Ok?
    ensures Reopen(CFG, d) == Ok(Mem(Load(d.snapshot).value, map[]))
  {
    hide Load;
    var m := Load(d.snapshot).value;
    assert Scan(EncodeAll([]), m) == Scanned([], m, 0);
  }

  lemma OneEntrySaved(c: Catalog)
    requires Dense(c) && c.names == map[1 := RAW]
    ensures |Snapshot(c)| == 1 && |c.events| == 1 && c.events.Keys == {RAW}
  {
    assert c.events.Keys == {RAW};
    assert |c.events| == |c.events.Keys| == 1;
    EntriesList(c);
    SameLength(c);
  }

  lemma OneIsDense(m: Catalog, e: Entry)
    requires m.names == map[1 := REPLACEMENT] && m.events.Keys == {REPLACEMENT} && |m.events| == 1
    requires m.events[REPLACEMENT] == e && e.id == 1 && ValidType(e.valueType)
    ensures Dense(m)
  {
    hide IsBlank;
    ReplacementIsNotBlank();
  }

  /** A saved registry whose one name is RAW opens with the replacement in its place. */
  lemma OpensWithReplacement(d: Disk, c: Catalog)
    requires Dense(c) && c.names == map[1 := RAW] && d.snapshot == Snapshot(c) && d.wal == []
    ensures Reopen(CFG, d).Ok?
    ensures var m := Reopen(CFG, d).value;
            && m.open == map[] && Dense(m.cat) && m.cat.names == map[1 := REPLACEMENT]
            && m.cat.events.Keys == {REPLACEMENT} && |m.cat.events| == 1
  {
    hide Load, Snapshot, Coerce, RuneLen, IsText, Holds, Reopen, IsBlank, ValidName;
    RawReadsAsReplacement();
    OneEntrySaved(c);
    SavedLoadsIff(c);
    LoadsIff(d.snapshot);
    NoLog(d);
    var m := Load(d.snapshot).value;
    OneEntryHeld(d.snapshot, m);
    OneIsDense(m, c.events[RAW].(last := None));
  }

  /** A registry that holds RAW beside its replacement cannot be loaded once it is saved. */
  lemma BothAreRefused(d: Disk, c: Catalog)
    requires Dense(c) && RAW in c.events && REPLACEMENT in c.events && d.snapshot == Snapshot(c)
    ensures Reopen(CFG, d).Err?
  {
    hide Load, Snapshot, Coerce, RuneLen, Scan, EncodeAll;
    RawReadsAsReplacement();
    SavedLoadsIff(c);
    assert RAW != REPLACEMENT;
  }

  /**
   The run: add an event named by one byte that is not valid UTF-8, flush, crash, reopen, add the event again, save,
   crash. The first reopen gives id 1 another name, the second add takes id 2, and then the database does not open.
   */
  lemma NameIsPinnedTwice() returns (ss: seq<State>, ls: seq<Label>)
    ensures ls == [Restart, Exec(Add(ADD_RAW)), Exec(Flush([0])), Crash(SaveCatalog, 0),
                   Restart, Exec(Add(ADD_AGAIN)), Exec(SaveCatalog), Crash(SaveCatalog, 0)]
    ensures Run(CFG, ss, ls)
    ensures ss[3].Up? && ss[3].at.mem.cat.names == map[1 := RAW]
    ensures ss[5].Up? && ss[5].at.mem.cat.names == map[1 := REPLACEMENT]
    ensures ss[6].Up? && ss[6].at.mem.cat.names == map[1 := REPLACEMENT, 2 := RAW]
    ensures ss[8].Down? && Reopen(CFG, ss[8].disk).Err?
  {
    hide IsBlank, Trim, AddEvent, FlushAll, Reopen, Snapshot, Run, Next, Dense;
    OpensEmpty();
    StartsRaw();
    var o1 := AddEvent(CFG, START, ADD_RAW);
    FirstIsLogged(CFG, ADD_RAW);
    FlushesOne(o1.end, RAW_FIRST);
    FlushSaves(o1.end, RAW_FIRST);
    var o2 := FlushAll(CFG, o1.end, [0]);
    FlushKeepsNames(o1.end, RAW_FIRST);
    OpensWithReplacement(o2.end.disk, o1.end.mem.cat);
    var p := Point(o2.end.disk, Reopen(CFG, o2.end.disk).value);
    var o3 := AddEvent(CFG, p, ADD_AGAIN);
    SecondTakesNext(p);
    var saved := Save(o3.end).end;
    BothAreRefused(saved.disk, o3.end.mem.cat);
    ss, ls := TwiceRun(o1, o2, p, o3);
  }

  lemma StartsRaw()
    ensures StaysLogged(CFG, ADD_RAW) && Trim(RAW) == RAW
    ensures var out := AddEvent(CFG, START, ADD_RAW);
            && out.logged == Some(RAW_FIRST) && out.end.mem.open == map[0 := [RAW_FIRST]] && out.end.disk.files == map[]
  {
    hide IsBlank, Trim, Full, MustForceFlush, MaybeReset, Assign, UpdateLast, AddEvent, AfterLog;
    OneByte(RAW);
    AddsNew(START, ADD_RAW, RAW_FIRST);
    assert Dense(EMPTY);
    AddCases(CFG, START, ADD_RAW);
    StaysOnPage(START, ADD_RAW);
  }

  lemma StaysOnPage(at: Point, q: Request)
    requires at.mem.open == map[] && AddEvent(CFG, at, q).end.mem.open != map[] && AddEvent(CFG, at, q).logged.Some?
    ensures AddEvent(CFG, at, q).end.disk.wal != []
  {
    hide IsBlank, Trim, Full, MustForceFlush, PageFits, Assign, UpdateLast, Snapshot;
  }

  const RAW_FIRST: Record := Record(1, 10, VALUE_NONE, 0, [])
  const RAW_SECOND: Record := Record(2, 20, VALUE_NONE, 0, [])

  lemma FlushKeepsNames(at: Point, r: Record)
    requires at.mem.open == map[0 := [r]] && at.disk.files == map[]
    requires r.payload == [] && r.valueType == VALUE_NONE
    ensures FlushAll(CFG, at, [0]).end.mem.cat.names == at.mem.cat.names
  {
    FitsOne(r);
    hide Snapshot, PageFits;
    assert [0][..0] == [];
    assert FlushPages(CFG, at, []) == Outcome(None, None, at, []);
    var f := FlushPages(CFG, at, [0]);
    assert f.end == FlushPage(at, 0) && f.err == None;
  }

  lemma SecondTakesNext(p: Point)
    requires p.mem.open == map[] && Dense(p.mem.cat) && p.mem.cat.names == map[1 := REPLACEMENT]
    requires p.mem.cat.events.Keys == {REPLACEMENT} && |p.mem.cat.events| == 1
    ensures var out := AddEvent(CFG, p, ADD_AGAIN);
            && out.err == None && out.logged == Some(RAW_SECOND)
            && Dense(out.end.mem.cat) && out.end.mem.cat.dirty
            && out.end.mem.cat.names == map[1 := REPLACEMENT, 2 := RAW]
            && RAW in out.end.mem.cat.events && REPLACEMENT in out.end.mem.cat.events
  {
    hide IsBlank, Trim, Full, MustForceFlush, PageFits, MaybeReset;
    OneByte(RAW);
    AddsNew(p, ADD_AGAIN, RAW_SECOND);
    AddCases(CFG, p, ADD_AGAIN);
    AssignedExtends(p.mem.cat, ADD_AGAIN, 2);
    StaysOpen(RAW_SECOND);
    assert OpenIn(p.mem, 0) + [RAW_SECOND] == [RAW_SECOND];
  }

  lemma TwiceRun(o1: Outcome, o2: Outcome, p: Point, o3: Outcome) returns (ss: seq<State>, ls: seq<Label>)
    requires Reopen(CFG, START.disk) == Ok(START.mem)
    requires o1 == AddEvent(CFG, START, ADD_RAW) && o2 == FlushAll(CFG, o1.end, [0]) && o2.logged == None
    requires Reopen(CFG, o2.end.disk).Ok? && p == Point(o2.end.disk, Reopen(CFG, o2.end.disk).value)
    requires o3 == AddEvent(CFG, p, ADD_AGAIN)
    ensures ls == [Restart, Exec(Add(ADD_RAW)), Exec(Flush([0])), Crash(SaveCatalog, 0),
                   Restart, Exec(Add(ADD_AGAIN)), Exec(SaveCatalog), Crash(SaveCatalog, 0)]
    ensures Run(CFG, ss, ls) && |ss| == 9
    ensures ss[3].Up? && ss[3].at == o2.end && ss[5].Up? && ss[5].at == p && ss[6].Up? && ss[6].at == o3.end
    ensures ss[8].Down? && ss[8].disk == Save(o3.end).end.disk
  {
    hide AddEvent, FlushAll, Reopen, Snapshot, Run, Next, Log, Save;
    var s4, l3 := UntilFlushed(o1, o2);
    var s7, l6 := UntilAddedAgain(s4, l3, p, o3);
    var s9, l8 := SavedAndCut(s7, l6, Save(o3.end).end);
    ss, ls := s9, l8;
  }

  lemma UntilFlushed(o1: Outcome, o2: Outcome) returns (ss: seq<State>, ls: seq<Label>)
    requires Reopen(CFG, START.disk) == Ok(START.mem)
    requires o1 == AddEvent(CFG, START, ADD_RAW) && o2 == FlushAll(CFG, o1.end, [0]) && o2.logged == None
    ensures ls == [Restart, Exec(Add(ADD_RAW)), Exec(Flush([0]))]
    ensures Run(CFG, ss, ls) && |ss| == 4 && ss[3].Up? && ss[3].at == o2.end
  {
    hide AddEvent, FlushAll, Reopen;
    var logged, acked := Log(o1), if o1.err.None? then multiset(Log(o1)) else multiset{};
    ss := [FRESH, Up(START, [], multiset{}), Up(o1.end, logged, acked), Up(o2.end, logged, acked)];
    ls := [Restart, Exec(Add(ADD_RAW)), Exec(Flush([0]))];
    assert Next(CFG, ss[0], ls[0], ss[1]);
    assert Next(CFG, ss[1], ls[1], ss[2]);
    assert Next(CFG, ss[2], ls[2], ss[3]);
  }

  lemma UntilAddedAgain(before: seq<State>, did: seq<Label>, p: Point, out: Outcome)
      returns (ss: seq<State>, ls: seq<Label>)
    requires Run(CFG, before, did) && |before| == |did| + 1 && before[|did|].Up?
    requires var d := before[|did|].at.disk;
             && Reopen(CFG, d).Ok? && p == Point(d, Reopen(CFG, d).value) && out == AddEvent(CFG, p, ADD_AGAIN)
    ensures ls == did + [Crash(SaveCatalog, 0), Restart, Exec(Add(ADD_AGAIN))]
    ensures Run(CFG, ss, ls) && |ss| == |before| + 3 && ss[..|before|] == before
    ensures ss[|did| + 2].Up? && ss[|did| + 2].at == p && ss[|did| + 3].Up? && ss[|did| + 3].at == out.end
  {
    hide Run, AddEvent, Reopen;
    var s := before[|did|];
    var down, up := Down(s.at.disk, s.logged, s.acked), Up(p, s.logged, s.acked);
    var acked := s.acked + if out.err.None? then multiset(Log(out)) else multiset{};
    var added := Up(out.end, s.logged + Log(out), acked);
    EventRunGrows(before, did, Crash(SaveCatalog, 0), down);
    EventRunGrows(before + [down], did + [Crash(SaveCatalog, 0)], Restart, up);
    EventRunGrows(before + [down] + [up], did + [Crash(SaveCatalog, 0)] + [Restart], Exec(Add(ADD_AGAIN)), added);
    ss := before + [down] + [up] + [added];
    ls := did + [Crash(SaveCatalog, 0)] + [Restart] + [Exec(Add(ADD_AGAIN))];
  }

  lemma SavedAndCut(before: seq<State>, did: seq<Label>, saved: Point) returns (ss: seq<State>, ls: seq<Label>)
    requires Run(CFG, before, did) && |before| == |did| + 1 && before[|did|].Up? && saved == Save(before[|did|].at).end
    ensures var s := before[|did|];
            && ss == before + [Up(saved, s.logged, s.acked), Down(saved.disk, s.logged, s.acked)]
            && ls == did + [Exec(SaveCatalog), Crash(SaveCatalog, 0)] && Run(CFG, ss, ls)
  {
    hide Run, Snapshot;
    var s := before[|did|];
    var up, down := Up(saved, s.logged, s.acked), Down(saved.disk, s.logged, s.acked);
    EventRunGrows(before, did, Exec(SaveCatalog), up);
    assert (before + [up])[|did| + 1] == up;
    EventRunGrows(before + [up], did + [Exec(SaveCatalog)], Crash(SaveCatalog, 0), down);
    ss, ls := before + [up] + [down], did + [Exec(SaveCatalog)] + [Crash(SaveCatalog, 0)];
  }

  lemma EventRunGrows(ss: seq<State>, ls: seq<Label>, l: Label, s: State)
    requires Run(CFG, ss, ls) && Next(CFG, ss[|ls|], l, s)
    ensures Run(CFG, ss + [s], ls + [l])
  {
    hide Next;
    var ss', ls' := ss + [s], ls + [l];
    forall i | 0 <= i < |ls'| ensures Next(CFG, ss'[i], ls'[i], ss'[i + 1]) {
      if i < |ls| {
        assert Next(CFG, ss[i], ls[i], ss[i + 1]);
      }
    }
  }
}
