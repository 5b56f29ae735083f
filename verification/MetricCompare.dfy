/** Checking a V2 metric file against the data file it was built from. */
module MetricCompare {
  import opened Prelude
  import opened Bytes
  import opened Samples
  import opened StableSort
  import opened MetricPlan
  import opened MetricBuild
  import opened MetricRecords
  import opened MetricFileV2
  import opened MetricFileProofs
  import opened MetricQuery

  type Expected = map<nat, seq<Point>>

  datatype CompareError =
    | Unreadable(cause: ReadError)
    | MissingInData
    | CountMismatch
    | SampleMismatch

  function PointsAs(types: Types, ss: Page): (ps: seq<Point>)
    requires forall s :: s in ss ==> types(s.id).Some?
    ensures |ps| == |ss|
  {
    seq(|ss|, i requires 0 <= i < |ss| => Point(ss[i].id, types(ss[i].id).value, ss[i].ts, ss[i].raw))
  }

  // ---------------------------------------------------------------- the expected samples

  /** The points gathered so far, before sorting. */
  ghost predicate Gathered(types: Types, ss: Page, out: Expected) {
    && AllKnown(types, ss)
    && (forall id :: id in out <==> OfMetric(ss, id) != [])
    && (forall id :: id in out ==> KnownPoints(types, ss, id) && out[id] == PointsAs(types, OfMetric(ss, id)))
  }

  ghost predicate KnownPoints(types: Types, ss: Page, id: nat) {
    forall s :: s in OfMetric(ss, id) ==> types(s.id).Some?
  }

  lemma MetricKnown(types: Types, ss: Page, id: nat)
    requires AllKnown(types, ss)
    ensures KnownPoints(types, ss, id)
  {
    forall s | s in OfMetric(ss, id) ensures types(s.id).Some? {
      OfMetricMember(ss, id, s);
    }
  }

  lemma GatherOne(types: Types, ss: Page, s: Sample, out: Expected)
    requires Gathered(types, ss, out) && types(s.id).Some?
    ensures Gathered(types, ss + [s], out[s.id := (if s.id in out then out[s.id] else []) + [Point(s.id, types(s.id).value, s.ts, s.raw)]])
  {
    hide OfMetric;
    var next := out[s.id := (if s.id in out then out[s.id] else []) + [Point(s.id, types(s.id).value, s.ts, s.raw)]];
    forall id
      ensures id in next <==> OfMetric(ss + [s], id) != []
      ensures id in next ==> KnownPoints(types, ss + [s], id) && next[id] == PointsAs(types, OfMetric(ss + [s], id))
    {
      OfMetricSnoc(ss, s, id);
      MetricKnown(types, ss + [s], id);
      if id != s.id {
        assert OfMetric(ss + [s], id) == OfMetric(ss, id);
      }
    }
  }

  /** The metric's points in stable time order. */
  ghost function ExpectedOf(types: Types, ss: Page, id: nat): (ps: seq<Point>)
    requires AllKnown(types, ss)
  {
    OrderedKnown(types, ss, id);
    PointsAs(types, Ordered(ss, id))
  }

  lemma OrderedKnown(types: Types, ss: Page, id: nat)
    requires AllKnown(types, ss)
    ensures forall s :: s in Ordered(ss, id) ==> types(s.id).Some?
  {
    SortIsStable(TimeOf, OfMetric(ss, id));
    forall s | s in Ordered(ss, id) ensures types(s.id).Some? {
      assert s in multiset(Ordered(ss, id));
      OfMetricMember(ss, id, s);
    }
  }

  /** What collectRawPartitionSamples returns. */
  ghost predicate IsExpected(types: Types, ss: Page, out: Expected) {
    && AllKnown(types, ss)
    && (forall id :: id in out <==> OfMetric(ss, id) != [])
    && (forall id :: id in out ==> out[id] == ExpectedOf(types, ss, id))
  }

  function PointTime(p: Point): int { p.ts }

  /** normalizePartitionSamplePointOrder sorts points as the build sorts samples. */
  lemma SortPoints(types: Types, ss: Page, id: nat)
    requires AllKnown(types, ss) && KnownPoints(types, ss, id)
    ensures Sort(PointTime, PointsAs(types, OfMetric(ss, id))) == ExpectedOf(types, ss, id)
  {
    var mine := OfMetric(ss, id);
    var f := (s: Sample) => Point(s.id, if types(s.id).Some? then types(s.id).value else 0, s.ts, s.raw);
    OrderedKnown(types, ss, id);
    SortThrough(PointTime, f, TimeOf, mine);
    hide Sort, OfMetric;
    assert Through(f, mine) == PointsAs(types, mine);
    assert Through(f, Ordered(ss, id)) == PointsAs(types, Ordered(ss, id));
  }

  method NormalizePoints(ps: seq<Point>) returns (r: seq<Point>)
    ensures r == Sort(PointTime, ps)
  {
    var i := 1;
    while i < |ps|
      invariant 1 <= i && (ps != [] ==> i <= |ps|)
      invariant forall j, k :: 0 <= j < k < i && k < |ps| ==> ps[j].ts <= ps[k].ts
    {
      if ps[i - 1].ts > ps[i].ts { return Sort(PointTime, ps); }
      i := i + 1;
    }
    SortedStays(PointTime, ps);
    return ps;
  }

  /** collectRawPartitionSamples over the samples of the pages. */
  method CollectRawSamples(types: Types, ss: Page) returns (r: Option<Expected>)
    ensures r.None? <==> !AllKnown(types, ss)
    ensures r.Some? ==> IsExpected(types, ss, r.value)
  {
    hide OfMetric, Sort, ExpectedOf;
    var gathered: Expected := map[];
    GatherNone(types);
    assert ss[..0] == [];
    for i := 0 to |ss|
      invariant Gathered(types, ss[..i], gathered)
    {
      var s := ss[i];
      var vt := types(s.id);
      if vt.None? {
        assert s in ss;
        return None;
      }
      GatherOne(types, ss[..i], s, gathered);
      assert ss[..i + 1] == ss[..i] + [s];
      gathered := gathered[s.id := (if s.id in gathered then gathered[s.id] else []) + [Point(s.id, vt.value, s.ts, s.raw)]];
    }
    assert ss[..|ss|] == ss;
    var out: Expected := map[];
    var rest := gathered.Keys;
    while rest != {}
      invariant rest <= gathered.Keys
      invariant forall id :: id in out <==> id in gathered.Keys - rest
      invariant forall id :: id in out ==> out[id] == ExpectedOf(types, ss, id)
      decreases |rest|
    {
      SomeId(rest);
      var id: nat :| id in rest;
      SortPoints(types, ss, id);
      var sorted := NormalizePoints(gathered[id]);
      out := out[id := sorted];
      rest := rest - {id};
    }
    return Some(out);
  }

  lemma GatherNone(types: Types)
    ensures Gathered(types, [], map[])
  {
  }

  lemma SomeId(s: set<nat>)
    requires s != {}
    ensures exists id: nat :: id in s
  {
    assert (forall id: nat :: id !in s) ==> s == {};
  }

  // ---------------------------------------------------------------- the comparison

  function PositionOf(positions: map<nat, nat>, id: nat): nat {
    if id in positions then positions[id] else 0
  }

  /** One index entry against the expected points that follow the metric's position. */
  function CompareEntry(env: Env, f: bytes, byId: map<nat, TimeEntry>, expected: Expected, positions: map<nat, nat>, e: MetricEntry)
    : (r: Result<map<nat, nat>, CompareError>)
  {
    if e.id !in expected then Err(MissingInData)
    else
      match WalkEntry(env, f, byId, e)
      case Err(x) => Err(Unreadable(x))
      case Ok(ps) =>
        var start := PositionOf(positions, e.id);
        var end := start + |ps|;
        if end > |expected[e.id]| then Err(CountMismatch)
        else if expected[e.id][start..end] != ps then Err(SampleMismatch)
        else Ok(positions[e.id := end])
  }

  function CompareEntries(env: Env, f: bytes, byId: map<nat, TimeEntry>, expected: Expected, es: seq<MetricEntry>)
    : (r: Result<map<nat, nat>, CompareError>)
  {
    if es == [] then Ok(map[])
    else
      match CompareEntries(env, f, byId, expected, es[..|es| - 1])
      case Err(x) => Err(x)
      case Ok(positions) => CompareEntry(env, f, byId, expected, positions, es[|es| - 1])
  }

  /** compareMetricPartitionSamplesFromFileV2: None is success. */
  ghost function Compare(env: Env, f: bytes, expected: Expected): (r: Option<CompareError>) {
    match ReadIndexes(env, f)
    case Err(x) => Some(Unreadable(x))
    case Ok(ix) =>
      match CompareEntries(env, f, TimeById(ix.times), expected, ix.metrics)
      case Err(x) => Some(x)
      case Ok(positions) =>
        if exists id :: id in expected && PositionOf(positions, id) != |expected[id]| then Some(CountMismatch) else None
  }

  lemma PointsOfBuilt(types: Types, ss: Page, id: nat)
    requires AllKnown(types, ss) && types(id).Some?
    ensures PointsOf(InputOf(id, types(id).value, Ordered(ss, id))) == ExpectedOf(types, ss, id)
  {
    OrderedFacts(ss, id);
    OrderedKnown(types, ss, id);
    hide Ordered;
    var mine := Ordered(ss, id);
    var a, b := PointsOf(InputOf(id, types(id).value, mine)), PointsAs(types, mine);
    forall i | 0 <= i < |mine| ensures a[i] == b[i] {
      assert mine[i] in mine;
    }
  }

  lemma BuiltEntryMatches(b: BuiltFile, expected: Expected, k: nat, positions: map<nat, nat>)
    requires b.Valid() && IsExpected(b.types, b.all, expected) && k < |b.ms|
    requires b.ms[k].input.id !in positions
    ensures var byId := TimeById(TimeEntries(b.env, b.w, b.Times()));
            var id := b.ms[k].input.id;
            && id in expected
            && CompareEntry(b.env, b.Bytes(), byId, expected, positions, EntriesOf(b)[k])
               == Ok(positions[id := |expected[id]|])
  {
    hide BuiltFile.Valid, FileBytes, TimeEntries, LayoutOf, WalkEntry, InputOf, PointsOf, FirstSeen, OfMetric, ExpectedOf,
         Ordered, PlanOk, TimeById, EntriesOf;
    FrameHolds(b, k);
    var id := b.ms[k].input.id;
    SeenOnce(b.all);
    PointsOfBuilt(b.types, b.all, id);
    BuiltPlanOk(b);
    EntryBounds(b, k);
    EntryIsWalked(b, k);
    assert expected[id][0..|expected[id]|] == expected[id];
  }

  lemma EntryIsWalked(b: BuiltFile, k: nat)
    requires b.Valid() && k < |b.ms|
    ensures WalkEntry(b.env, b.Bytes(), TimeById(TimeEntries(b.env, b.w, b.Times())), EntriesOf(b)[k])
            == Ok(PointsOf(b.ms[k].input))
  {
    hide BuiltFile.Valid, FileBytes, TimeEntries, LayoutOf, WalkEntry, PointsOf, PlanOk, TimeById, MetricEntries;
    BuiltPlanOk(b);
    EntryWalks(b.env, b.w, b.Times(), b.ms, k);
  }

  /** After the first k entries, exactly their metrics are at the end of their points. */
  lemma {:induction false} BuiltMatchesUpTo(b: BuiltFile, expected: Expected, k: nat)
    requires b.Valid() && IsExpected(b.types, b.all, expected) && k <= |b.ms|
    ensures var byId := TimeById(TimeEntries(b.env, b.w, b.Times()));
            var r := CompareEntries(b.env, b.Bytes(), byId, expected, EntriesOf(b)[..k]);
            && r.Ok?
            && (forall id :: id in r.value <==> exists i :: 0 <= i < k && b.ms[i].input.id == id)
            && (forall id :: id in r.value ==> id in expected && r.value[id] == |expected[id]|)
  {
    hide BuiltFile.Valid, FileBytes, TimeEntries, CompareEntry, EntriesOf, IsExpected, TimeById, WithIds;
    if k > 0 {
      BuiltMatchesUpTo(b, expected, k - 1);
      assert EntriesOf(b)[..k][..k - 1] == EntriesOf(b)[..k - 1];
      var before := CompareEntries(b.env, b.Bytes(), TimeById(TimeEntries(b.env, b.w, b.Times())), expected, EntriesOf(b)[..k - 1]).value;
      OneFrameEach(b);
      BuiltEntryMatches(b, expected, k - 1, before);
      var id := b.ms[k - 1].input.id;
      var after := before[id := |expected[id]|];
      forall x ensures x in after <==> exists i :: 0 <= i < k && b.ms[i].input.id == x {
        if x == id {
          assert b.ms[k - 1].input.id == x;
        } else if x in after {
          var i :| 0 <= i < k - 1 && b.ms[i].input.id == x;
          assert 0 <= i < k;
        }
      }
    }
  }

  /** Building a metric file from a data file and comparing the two always succeeds. */
  lemma BuildThenCompareSucceeds(b: BuiltFile, expected: Expected)
    requires b.Valid() && IsExpected(b.types, b.all, expected)
    ensures Compare(b.env, b.Bytes(), expected) == None
  {
    hide BuiltFile.Valid, PlanOk, FileBytes, TimeEntries, LayoutOf, CompareEntries, OfMetric, FirstSeen, ExpectedOf,
         ReadIndexes, TimeById, WithIds;
    BuiltPlanOk(b);
    IndexesRead(b.env, b.w, b.Times(), b.ms);
    BuiltMatchesUpTo(b, expected, |b.ms|);
    assert EntriesOf(b)[..|b.ms|] == EntriesOf(b);
    OneFrameEach(b);
    SeenOnce(b.all);
  }

  // ---------------------------------------------------------------- what the comparison accepts

  /** The points of one metric, in file order. */
  function OfId(ps: seq<Point>, id: nat): (r: seq<Point>) {
    if ps == [] then []
    else
      var p := ps[|ps| - 1];
      OfId(ps[..|ps| - 1], id) + if p.id == id then [p] else []
  }

  lemma {:induction false} OfIdAppend(ps: seq<Point>, qs: seq<Point>, id: nat)
    ensures OfId(ps + qs, id) == OfId(ps, id) + OfId(qs, id)
    decreases |qs|
  {
    if qs == [] {
      assert ps + qs == ps;
    } else {
      var init := qs[..|qs| - 1];
      assert (ps + qs)[..|ps + qs| - 1] == ps + init;
      OfIdAppend(ps, init, id);
    }
  }

  lemma {:induction false} OfOwnId(ps: seq<Point>, own: nat, id: nat)
    requires forall p :: p in ps ==> p.id == own
    ensures OfId(ps, id) == if id == own then ps else []
  {
    if ps != [] {
      assert ps == ps[..|ps| - 1] + [ps[|ps| - 1]];
      OfOwnId(ps[..|ps| - 1], own, id);
    }
  }

  lemma WalkedIds(env: Env, f: bytes, byId: map<nat, TimeEntry>, e: MetricEntry)
    requires WalkEntry(env, f, byId, e).Ok?
    ensures forall p :: p in WalkEntry(env, f, byId, e).value ==> p.id == e.id
  {
    hide ReadTimeFrame, ReadMetricFrame;
  }

  /** Every entry's metric is expected. */
  ghost predicate Listed(expected: Expected, es: seq<MetricEntry>) {
    forall k :: 0 <= k < |es| ==> es[k].id in expected
  }

  /** The walked points of each expected metric are the first of its expected points. */
  ghost predicate Begins(expected: Expected, ps: seq<Point>, positions: map<nat, nat>) {
    forall id :: id in expected ==>
      PositionOf(positions, id) <= |expected[id]| && OfId(ps, id) == expected[id][..PositionOf(positions, id)]
  }

  lemma EntryBegins(env: Env, f: bytes, byId: map<nat, TimeEntry>, expected: Expected, ps: seq<Point>,
                    positions: map<nat, nat>, e: MetricEntry)
    requires Begins(expected, ps, positions)
    ensures var r := CompareEntry(env, f, byId, expected, positions, e);
            r.Ok? ==>
              e.id in expected && WalkEntry(env, f, byId, e).Ok?
              && Begins(expected, ps + WalkEntry(env, f, byId, e).value, r.value)
  {
    hide WalkEntry, OfId;
    var r := CompareEntry(env, f, byId, expected, positions, e);
    if r.Ok? {
      var qs := WalkEntry(env, f, byId, e).value;
      WalkedIds(env, f, byId, e);
      forall id | id in expected
        ensures PositionOf(r.value, id) <= |expected[id]|
        ensures OfId(ps + qs, id) == expected[id][..PositionOf(r.value, id)]
      {
        OfIdAppend(ps, qs, id);
        OfOwnId(qs, e.id, id);
        var start := PositionOf(positions, id);
        if id == e.id {
          assert expected[id][..start + |qs|] == expected[id][..start] + expected[id][start..start + |qs|];
        } else {
          assert OfId(ps, id) + [] == OfId(ps, id);
        }
      }
    }
  }

  lemma {:induction false} AcceptedBegins(env: Env, f: bytes, byId: map<nat, TimeEntry>, expected: Expected, es: seq<MetricEntry>)
    requires CompareEntries(env, f, byId, expected, es).Ok?
    ensures WalkEntries(env, f, byId, es).Ok? && Listed(expected, es)
    ensures Begins(expected, WalkEntries(env, f, byId, es).value, CompareEntries(env, f, byId, expected, es).value)
  {
    hide CompareEntry, WalkEntry, Begins;
    if es == [] {
      NothingWalked(expected);
    } else {
      var init, e := es[..|es| - 1], es[|es| - 1];
      AcceptedBegins(env, f, byId, expected, init);
      EntryBegins(env, f, byId, expected, WalkEntries(env, f, byId, init).value,
                  CompareEntries(env, f, byId, expected, init).value, e);
    }
  }

  lemma NothingWalked(expected: Expected)
    ensures Begins(expected, [], map[])
  {
  }

  /** A prefix of the walk that agrees with what is expected passes the comparison. */
  lemma EntryPasses(env: Env, f: bytes, byId: map<nat, TimeEntry>, expected: Expected, ps: seq<Point>,
                    positions: map<nat, nat>, e: MetricEntry)
    requires Begins(expected, ps, positions) && e.id in expected && WalkEntry(env, f, byId, e).Ok?
    requires OfId(ps + WalkEntry(env, f, byId, e).value, e.id) <= expected[e.id]
    ensures CompareEntry(env, f, byId, expected, positions, e).Ok?
  {
    hide WalkEntry, OfId;
    var qs := WalkEntry(env, f, byId, e).value;
    WalkedIds(env, f, byId, e);
    OfIdAppend(ps, qs, e.id);
    OfOwnId(qs, e.id, e.id);
    var start := PositionOf(positions, e.id);
    assert OfId(ps, e.id) + qs <= expected[e.id];
    assert |OfId(ps, e.id)| == start;
    assert (OfId(ps, e.id) + qs)[start..start + |qs|] == qs;
  }

  lemma {:induction false} AgreeingPasses(env: Env, f: bytes, byId: map<nat, TimeEntry>, expected: Expected, es: seq<MetricEntry>)
    requires WalkEntries(env, f, byId, es).Ok? && Listed(expected, es)
    requires forall id :: id in expected ==> OfId(WalkEntries(env, f, byId, es).value, id) <= expected[id]
    ensures CompareEntries(env, f, byId, expected, es).Ok?
  {
    hide CompareEntry, WalkEntry, OfId, Begins;
    if es != [] {
      var init, e := es[..|es| - 1], es[|es| - 1];
      var ps, qs := WalkEntries(env, f, byId, init).value, WalkEntry(env, f, byId, e).value;
      forall id | id in expected ensures OfId(ps, id) <= expected[id] {
        OfIdAppend(ps, qs, id);
        assert OfId(ps, id) + OfId(qs, id) <= expected[id];
      }
      assert forall k :: 0 <= k < |init| ==> init[k] == es[k];
      AgreeingPasses(env, f, byId, expected, init);
      AcceptedBegins(env, f, byId, expected, init);
      assert e.id in expected;
      EntryPasses(env, f, byId, expected, ps, CompareEntries(env, f, byId, expected, init).value, e);
    }
  }

  /**
   The comparison succeeds exactly when the file can be read, holds only expected metrics, and reading it yields,
   metric by metric, exactly the expected samples in the expected order.
   */
  lemma CompareSucceedsIff(env: Env, f: bytes, expected: Expected)
    ensures Compare(env, f, expected) == None
            <==> Walk(env, f).Ok? && Listed(expected, ReadIndexes(env, f).value.metrics)
                 && forall id :: id in expected ==> OfId(Walk(env, f).value, id) == expected[id]
  {
    hide ReadIndexes, CompareEntries, WalkEntries, OfId, TimeById;
    var indexes := ReadIndexes(env, f);
    if indexes.Ok? {
      var byId, es := TimeById(indexes.value.times), indexes.value.metrics;
      if Walk(env, f).Ok? && Listed(expected, es) && forall id :: id in expected ==> OfId(Walk(env, f).value, id) == expected[id] {
        AgreeingPasses(env, f, byId, expected, es);
      }
      if CompareEntries(env, f, byId, expected, es).Ok? {
        AcceptedBegins(env, f, byId, expected, es);
        var ps, positions := WalkEntries(env, f, byId, es).value, CompareEntries(env, f, byId, expected, es).value;
        forall id | id in expected
          ensures OfId(ps, id) == expected[id] <==> PositionOf(positions, id) == |expected[id]|
        {
          assert expected[id][..|expected[id]|] == expected[id];
        }
      }
    }
  }

  // ---------------------------------------------------------------- the loops of the comparison

  /** Every point is filed under its own metric. */
  ghost predicate Keyed(expected: Expected) {
    forall id, i :: id in expected && 0 <= i < |expected[id]| ==> expected[id][i].id == id
  }

  /** One frame's samples against the expected points from `start` on, field by field. */
  method SameSamples(e: MetricEntry, times: Vector, raws: seq<nat>, pts: seq<Point>, start: nat) returns (same: bool)
    requires |times| == |raws| && start + |times| <= |pts|
    requires forall i :: 0 <= i < |pts| ==> pts[i].id == e.id
    ensures same == (pts[start..start + |times|] == Join2(e, times, raws))
  {
    ghost var walked := Join2(e, times, raws);
    for i := 0 to |times|
      invariant forall k :: 0 <= k < i ==> pts[start + k] == walked[k]
    {
      var expectedPt := pts[start + i];
      if expectedPt.ts != times[i] || expectedPt.valueType != e.valueType || expectedPt.raw != raws[i] {
        assert pts[start..start + |times|][i] != walked[i];
        return false;
      }
    }
    return true;
  }

  /** One index entry: None moves the metric's position past the frame. */
  method CompareFrame(env: Env, f: bytes, byId: map<nat, TimeEntry>, expected: Expected, positions: map<nat, nat>, e: MetricEntry)
    returns (r: Result<map<nat, nat>, CompareError>)
    requires Keyed(expected)
    ensures r == CompareEntry(env, f, byId, expected, positions, e)
  {
    hide ReadTimeFrame, ReadMetricFrame;
    if e.id !in expected { return Err(MissingInData); }
    if e.frameId !in byId { return Err(Unreadable(MissingTimeFrame)); }
    var times := ReadTimeFrame(env, f, byId[e.frameId]);
    if times.Err? { return Err(Unreadable(times.error)); }
    var raws := ReadMetricFrame(env, f, e);
    if raws.Err? { return Err(Unreadable(raws.error)); }
    var endOffset := e.offset + |raws.value|;
    if endOffset > |times.value| { return Err(Unreadable(SliceOutOfBounds)); }
    var start := PositionOf(positions, e.id);
    var end := start + |raws.value|;
    if end > |expected[e.id]| { return Err(CountMismatch); }
    var same := SameSamples(e, times.value[e.offset..endOffset], raws.value, expected[e.id], start);
    if !same { return Err(SampleMismatch); }
    return Ok(positions[e.id := end]);
  }

  /** compareMetricPartitionSamplesFromFileV2. */
  method ComparePartition(env: Env, f: bytes, expected: Expected) returns (err: Option<CompareError>)
    requires Keyed(expected)
    ensures err == Compare(env, f, expected)
  {
    hide ReadIndexes, CompareEntry, TimeById, Keyed;
    var indexes := ReadIndexes(env, f);
    if indexes.Err? { return Some(Unreadable(indexes.error)); }
    var byId, es := TimeById(indexes.value.times), indexes.value.metrics;
    var positions: map<nat, nat> := map[];
    assert es[..0] == [];
    for k := 0 to |es|
      invariant CompareEntries(env, f, byId, expected, es[..k]) == Ok(positions)
    {
      assert es[..k + 1][..k] == es[..k];
      var r := CompareFrame(env, f, byId, expected, positions, es[k]);
      if r.Err? {
        CompareStops(env, f, byId, expected, es, k + 1);
        return Some(r.error);
      }
      positions := r.value;
    }
    assert es[..|es|] == es;
    var rest := expected.Keys;
    while rest != {}
      invariant rest <= expected.Keys
      invariant forall id :: id in expected && id !in rest ==> PositionOf(positions, id) == |expected[id]|
      decreases |rest|
    {
      SomeId(rest);
      var id: nat :| id in rest;
      if PositionOf(positions, id) != |expected[id]| { return Some(CountMismatch); }
      rest := rest - {id};
    }
    return None;
  }

  lemma {:induction false} CompareStops(env: Env, f: bytes, byId: map<nat, TimeEntry>, expected: Expected, es: seq<MetricEntry>, k: nat)
    requires k <= |es| && CompareEntries(env, f, byId, expected, es[..k]).Err?
    ensures CompareEntries(env, f, byId, expected, es) == CompareEntries(env, f, byId, expected, es[..k])
    decreases |es| - k
  {
    hide CompareEntry;
    if k == |es| {
      assert es[..k] == es;
    } else {
      assert es[..k + 1][..k] == es[..k];
      CompareStops(env, f, byId, expected, es, k + 1);
    }
  }
}
