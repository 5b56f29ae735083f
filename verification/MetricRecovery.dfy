/**
 Opening a metric database again: exactly when it succeeds, which metrics the registry then has, and what that means
 for the ids and the times of the process that follows.
 */
module MetricRecovery {
  import opened Prelude
  import opened Bytes
  import opened Names
  import opened Samples
  import opened MetricRegistry
  import opened MetricEngine
  import opened MetricInvariant
  import opened MetricIngest
  import opened MetricReplay
  import opened MetricRuns

  // ---------------------------------------------------------------- what the files pin

  function LoggedPin(w: Logged): Pin
    requires w.Naming?
  {
    Pin(w.name, w.sample.id, w.valueType)
  }

  /** The pins of the log records that carry a name. */
  ghost function LogPins(ws: seq<Logged>): set<Pin> {
    set w | w in ws && w.Naming? :: LoggedPin(w)
  }

  /** The pins of catalog.json and of the log. */
  ghost function DiskPins(d: Disk): set<Pin> {
    SavedPins(d.saved) + LogPins(d.wal)
  }

  /** Every log record without a name is of a metric that catalog.json lists. */
  ghost predicate Resolved(d: Disk) {
    forall i :: 0 <= i < |d.wal| && d.wal[i].Nameless? ==> HasId(SavedPins(d.saved), d.wal[i].sample.id)
  }

  lemma LogPinsSnoc(ws: seq<Logged>, w: Logged)
    ensures LogPins(ws + [w]) == LogPins(ws) + if w.Naming? then {LoggedPin(w)} else {}
  {
    assert forall x :: x in ws + [w] <==> x in ws || x == w;
  }

  lemma AgreeGrows(s: set<Pin>, x: Pin)
    ensures Agree(s + {x}) <==> Agree(s) && Fits(s, x)
  {
    if Agree(s + {x}) {
      forall p | p in s ensures Fits(s, p) {
        assert Fits(s + {x}, p);
      }
      assert Fits(s + {x}, x);
    }
    if Agree(s) && Fits(s, x) {
      forall p | p in s + {x} ensures Fits(s + {x}, p) {
        if p in s {
          assert Fits(s, p);
        }
      }
    }
  }

  // ---------------------------------------------------------------- naming the records of the log

  ghost predicate Pinning(c: Registry, s: set<Pin>) {
    Linked(c) && PinsOf(c) == s
  }

  lemma SamePinning(c: Registry, d: Registry, s: set<Pin>)
    requires Pinning(c, s) && SameNames(c, d)
    ensures Pinning(d, s)
  {
    SameMetricsPins(c, d);
  }

  lemma ReinsertNames(cfg: Config, at: Point, s: Sample, pins: set<Pin>)
    requires Pinning(at.mem.cat, pins)
    ensures Pinning(Reinsert(cfg, at, s).end.mem.cat, pins)
  {
    hide EnsureDay, WriteDay, WriteTrail, Refuses, Stored, Pinning, NoteLast;
    var p := cfg.part(s.ts);
    EnsureStores(cfg, at, p);
    var ready := EnsureDay(cfg, at, p).end;
    SamePinning(at.mem.cat, ready.mem.cat, pins);
    PutNames(ready, p, s, pins);
    WriteStores(cfg, ready, p);
    var flushed := WriteDay(cfg, ready, p);
    SamePinning(ready.mem.cat, flushed.mem.cat, pins);
    EnsureStores(cfg, flushed, p);
    var again := EnsureDay(cfg, flushed, p).end;
    SamePinning(flushed.mem.cat, again.mem.cat, pins);
    PutNames(again, p, s, pins);
  }

  lemma PutNames(at: Point, p: Part, s: Sample, pins: set<Pin>)
    requires Pinning(at.mem.cat, pins)
    ensures Pinning(Put(at, p, s).mem.cat, pins)
  {
    NoteLastPins(at.mem.cat, s.id, s.ts);
  }

  /** Naming one record: it succeeds exactly when its pin contradicts none, and adds it. */
  lemma NameRecordIff(c: Registry, w: Logged, pins: set<Pin>)
    requires Pinning(c, pins) && (w.Nameless? ==> HasId(pins, w.sample.id))
    ensures var r := NameRecord(c, w);
            && (r.Ok? <==> w.Naming? ==> Fits(pins, LoggedPin(w)))
            && (r.Ok? ==> Pinning(r.value, pins + if w.Naming? then {LoggedPin(w)} else {}))
  {
    hide Linked, PinsOf;
    PinsGive(c);
    if w.Naming? {
      EnsureIff(c, w.name, w.sample.id, w.valueType);
      if Ensure(c, w.name, w.sample.id, w.valueType).Ok? {
        var d := Ensure(c, w.name, w.sample.id, w.valueType).value;
        PinsGive(d);
        assert LoggedPin(w) in PinsOf(d) && HasId(PinsOf(d), w.sample.id);
      }
    } else {
      assert pins + {} == pins;
    }
  }

  /** Replay goes on exactly as long as no pin contradicts another, and the registry has all pins so far. */
  lemma {:induction false} ReplayNames(cfg: Config, pt: Point, un: multiset<Sample>, c: Registry, k: nat)
    requires Inv(cfg, pt, un) && Linked(c) && Resolves(c, pt.disk.wal) && k <= |pt.disk.wal|
    ensures var out, pins := Replay(cfg, pt.disk, c, pt.disk.wal[..k]).out, PinsOf(c) + LogPins(pt.disk.wal[..k]);
            && (out.err.None? <==> Agree(pins))
            && (out.err.None? ==> Pinning(out.end.mem.cat, pins))
  {
    hide Inv, ReplayOne, Fits, Pinning, Tracking, Resuming, NeverSealed, Agree, PinsOf, LogPins;
    PinsGive(c);
    if k == 0 {
      NoPins(c);
    } else {
      var ws, w := pt.disk.wal[..k - 1], pt.disk.wal[k - 1];
      assert pt.disk.wal[..k][..k - 1] == ws && pt.disk.wal[..k] == ws + [w];
      ReplayNames(cfg, pt, un, c, k - 1);
      LogPinsSnoc(ws, w);
      var prev, pins := Replay(cfg, pt.disk, c, ws), PinsOf(c) + LogPins(ws);
      if w.Naming? {
        AgreeGrows(pins, LoggedPin(w));
        assert PinsOf(c) + (LogPins(ws) + {LoggedPin(w)}) == pins + {LoggedPin(w)};
      } else {
        assert PinsOf(c) + (LogPins(ws) + {}) == pins + {} == pins;
        IdStays(PinsOf(c), LogPins(ws), w.sample.id);
      }
      if prev.out.err.None? {
        ReplayTracks(cfg, pt, un, c, k - 1);
        ResumeTurn(cfg, pt, un, k - 1, prev);
        NameRecordIff(prev.out.end.mem.cat, w, pins);
        NamedTurn(cfg, prev, w, pins + if w.Naming? then {LoggedPin(w)} else {});
      }
    }
  }

  lemma NoPins(c: Registry)
    requires Linked(c)
    ensures LogPins([]) == {} && PinsOf(c) + LogPins([]) == PinsOf(c) && Pinning(c, PinsOf(c))
    ensures Agree(PinsOf(c))
  {
    PinsGive(c);
  }

  lemma IdStays(s: set<Pin>, t: set<Pin>, i: nat)
    ensures HasId(s, i) ==> HasId(s + t, i)
  {
  }

  lemma NamedTurn(cfg: Config, prev: Replayed, w: Logged, pins: set<Pin>)
    requires NameRecord(prev.out.end.mem.cat, w).Ok? ==> Pinning(NameRecord(prev.out.end.mem.cat, w).value, pins)
    ensures NameRecord(prev.out.end.mem.cat, w).Ok? ==> Pinning(ReplayOne(cfg, prev, w).out.end.mem.cat, pins)
  {
    hide NameRecord, Pinning, Reinsert, MarkOf, IsDurable;
    if NameRecord(prev.out.end.mem.cat, w).Ok? {
      var at := prev.out.end;
      ReinsertNames(cfg, at.(mem := at.mem.(cat := NameRecord(at.mem.cat, w).value)), w.sample, pins);
    }
  }

  // ---------------------------------------------------------------- opening

  lemma ResolvesIff(d: Disk)
    requires Load(d.saved).Ok?
    ensures Resolves(Load(d.saved).value, d.wal) <==> Resolved(d)
  {
    LoadsIff(d.saved);
    PinsGive(Load(d.saved).value);
    hide Linked, PinsOf, Load;
  }

  /**
   Exactly when the files of a crash open again: catalog.json loads, it lists every metric of which the log holds a
   record without a name, and no two pins of catalog.json and the log give one name two ids or types, or one id two
   names. The registry then pins what catalog.json and the log do, and its ids are 1..n exactly when none up to the
   largest is missing from both.
   */
  lemma ReopensIff(cfg: Config, d: Disk)
    requires Sound(cfg, d) && cfg.walEnabled
    ensures var out := Reopen(cfg, d);
            && (out.err.None? <==> Loadable(d.saved) && Resolved(d) && Agree(DiskPins(d)))
            && (out.err.None? ==>
                  && Linked(out.end.mem.cat) && PinsOf(out.end.mem.cat) == DiskPins(d)
                  && (Numbered(out.end.mem.cat) <==> GapFree(DiskPins(d))))
  {
    hide Inv, Replay, Load, Resolves, Resolved, Agree, Linked, PinsOf, GapFree, Numbered;
    LoadsIff(d.saved);
    if Load(d.saved).Ok? {
      ResolvesIff(d);
      var c := Load(d.saved).value;
      if Resolves(c, d.wal) {
        var pt: Point, un: multiset<Sample> :| pt.disk == d && Inv(cfg, pt, un);
        ReplayNames(cfg, pt, un, c, |d.wal|);
        assert d.wal[..|d.wal|] == d.wal;
        if Agree(DiskPins(d)) {
          NumberedIffGapFree(Reopen(cfg, d).end.mem.cat);
        }
      }
    }
  }

  /** With the log disabled only catalog.json matters. */
  lemma ReopensUnloggedIff(cfg: Config, d: Disk)
    requires !cfg.walEnabled
    ensures var out := Reopen(cfg, d);
            && (out.err.None? <==> Loadable(d.saved))
            && (out.err.None? ==>
                  && Linked(out.end.mem.cat) && PinsOf(out.end.mem.cat) == SavedPins(d.saved)
                  && (Numbered(out.end.mem.cat) <==> GapFree(SavedPins(d.saved))))
  {
    hide Load, Linked, PinsOf, GapFree, Numbered;
    LoadsIff(d.saved);
    if Load(d.saved).Ok? {
      NumberedIffGapFree(Load(d.saved).value);
    }
  }

  // ---------------------------------------------------------------- the process that follows

  /** The pins a reopen takes from the files. */
  ghost function TakenPins(cfg: Config, d: Disk): set<Pin> {
    if cfg.walEnabled then DiskPins(d) else SavedPins(d.saved)
  }

  /** The operations of the steps ls[i..j]. */
  ghost function Ops(ls: seq<Label>, i: nat, j: nat): (ops: seq<Op>)
    requires i <= j <= |ls| && forall k :: i <= k < j ==> ls[k].Exec?
    ensures |ops| == j - i
  {
    seq(j - i, k requires 0 <= k < j - i => ls[i + k].op)
  }

  lemma {:induction false} RunIsAfter(cfg: Config, ss: seq<State>, ls: seq<Label>, i: nat, j: nat)
    requires Run(cfg, ss, ls) && i <= j <= |ls| && ss[i].Up? && forall k :: i <= k < j ==> ls[k].Exec?
    ensures ss[j].Up? && ss[j].at == After(cfg, ss[i].at, Ops(ls, i, j))
    decreases j
  {
    hide Perform;
    if i < j {
      RunIsAfter(cfg, ss, ls, i, j - 1);
      assert Next(cfg, ss[j - 1], ls[j - 1], ss[j]);
      assert Ops(ls, i, j) == Ops(ls, i, j - 1) + [ls[j - 1].op];
    }
  }

  /**
   In any run, from a reopen of files that miss no id up to the largest until the next crash: every metric has an id
   of its own, the ids are 1..n, and the accepted times of one metric never go back.
   */
  lemma RunsAreMonotone(cfg: Config, ss: seq<State>, ls: seq<Label>, i: nat, j: nat)
    requires Run(cfg, ss, ls) && i < j <= |ls| && ls[i].Restart? && ss[i + 1].Up?
    requires forall k :: i < k < j ==> ls[k].Exec?
    requires GapFree(TakenPins(cfg, ss[i].disk))
    ensures ss[j].Up? && Numbered(ss[j].at.mem.cat)
    ensures MetricOrder(Accepted(cfg, ss[i + 1].at, Ops(ls, i + 1, j)))
  {
    hide GapFree, Numbered, Reopen, After, Accepted, Safe, MetricOrder, Behind, LastGrows, Agree, Loadable, Resolved, Linked;
    assert Next(cfg, ss[i], ls[i], ss[i + 1]);
    var d := ss[i].disk;
    if cfg.walEnabled {
      RestartIsSound(cfg, ss, ls, i);
      ReopensIff(cfg, d);
    } else {
      ReopensUnloggedIff(cfg, d);
    }
    RunIsAfter(cfg, ss, ls, i + 1, j);
    ProcessIsMonotone(cfg, ss[i + 1].at, Ops(ls, i + 1, j));
  }

  lemma RestartIsSound(cfg: Config, ss: seq<State>, ls: seq<Label>, i: nat)
    requires Run(cfg, ss, ls) && i < |ss| && ss[i].Down?
    ensures Sound(cfg, ss[i].disk)
  {
    hide Run, Sound;
    RunIsSafe(cfg, ss, ls, i);
  }
}
