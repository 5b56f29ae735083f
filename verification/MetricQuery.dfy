/**
 Range queries for one metric over a partition: scanning the raw pages, or reading the V2 file built from them.
 Both prune by time bounds; both count matches across partitions and keep every stride-th.
 */
module MetricQuery {
  import opened Prelude
  import opened Bytes
  import opened Samples
  import opened DataPages
  import opened StableSort
  import opened MetricPlan
  import opened MetricBuild
  import opened MetricRecords
  import opened MetricFileV2
  import opened MetricFileProofs

  /** A range, a stride, and how many matches earlier partitions have already counted. */
  datatype Range = Range(from: Timestamp, to: Timestamp, stride: nat) {
    predicate Holds(ts: Timestamp) { from <= ts <= to }
  }

  /** The samples emitted, and the count afterwards. */
  type Emitted = (Page, nat)

  /** The loop of collectInt32Samples and collectFloat32Samples. */
  function Take(ss: Page, q: Range, count: nat): (r: Emitted)
    requires q.stride > 0
  {
    if ss == [] then ([], count)
    else
      var (out, n) := Take(ss[..|ss| - 1], q, count);
      var s := ss[|ss| - 1];
      if !q.Holds(s.ts) then (out, n)
      else if n % q.stride != 0 then (out, n + 1)
      else (out + [s], n + 1)
  }

  lemma TakeSnoc(ss: Page, s: Sample, q: Range, count: nat)
    requires q.stride > 0
    ensures var (out, n) := Take(ss, q, count);
            Take(ss + [s], q, count)
            == if !q.Holds(s.ts) then (out, n) else if n % q.stride != 0 then (out, n + 1) else (out + [s], n + 1)
  {
    assert (ss + [s])[..|ss|] == ss;
  }

  lemma {:induction false} TakeAppend(ss: Page, ts: Page, q: Range, count: nat)
    requires q.stride > 0
    ensures var (a, n) := Take(ss, q, count);
            var (b, m) := Take(ts, q, n);
            Take(ss + ts, q, count) == (a + b, m)
    decreases |ts|
  {
    var (a, n) := Take(ss, q, count);
    if ts == [] {
      assert ss + ts == ss && a + [] == a;
    } else {
      var init, last := ts[..|ts| - 1], ts[|ts| - 1];
      assert ss + ts == (ss + init) + [last];
      TakeAppend(ss, init, q, count);
      TakeSnoc(ss + init, last, q, count);
      var b := Take(init, q, n).0;
      assert a + (b + [last]) == a + b + [last];
    }
  }

  lemma {:induction false} TakeNone(ss: Page, q: Range, count: nat)
    requires q.stride > 0 && forall s :: s in ss ==> !q.Holds(s.ts)
    ensures Take(ss, q, count) == ([], count)
  {
    if ss != [] {
      assert ss == ss[..|ss| - 1] + [ss[|ss| - 1]];
      TakeNone(ss[..|ss| - 1], q, count);
    }
  }

  /** With stride one and everything in range, every sample is emitted. */
  lemma {:induction false} TakeAll(ss: Page, q: Range, count: nat)
    requires q.stride == 1 && forall s :: s in ss ==> q.Holds(s.ts)
    ensures Take(ss, q, count) == (ss, count + |ss|)
  {
    if ss != [] {
      assert ss == ss[..|ss| - 1] + [ss[|ss| - 1]];
      TakeAll(ss[..|ss| - 1], q, count);
    }
  }

  // ---------------------------------------------------------------- the raw scan

  /** Whether the header lets a page through. */
  predicate Overlaps(start: Timestamp, end: Timestamp, q: Range) {
    !(end < q.from || start > q.to)
  }

  method CollectFromPage(id: nat, page: Page, q: Range, count0: nat) returns (out: Page, count: nat)
    requires q.stride > 0
    ensures (out, count) == Take(OfMetric(page, id), q, count0)
  {
    hide Take, OfMetric;
    out, count := [], count0;
    NothingTaken(id, q, count0);
    assert page[..0] == [];
    for i := 0 to |page|
      invariant (out, count) == Take(OfMetric(page[..i], id), q, count0)
    {
      assert page[..i + 1] == page[..i] + [page[i]];
      OfMetricSnoc(page[..i], page[i], id);
      TakeSnoc(OfMetric(page[..i], id), page[i], q, count0);
      assert page[i].id != id ==> OfMetric(page[..i + 1], id) == OfMetric(page[..i], id);
      if page[i].id != id { continue; }
      var ts := page[i].ts;
      if ts < q.from || ts > q.to { continue; }
      if count % q.stride != 0 {
        count := count + 1;
        continue;
      }
      count := count + 1;
      out := out + [page[i]];
    }
    assert page[..|page|] == page;
  }

  lemma NothingTaken(id: nat, q: Range, count: nat)
    requires q.stride > 0
    ensures OfMetric([], id) == [] && Take([], q, count) == ([], count)
  {
  }

  function SamplesIn(ps: seq<Stored>): (ss: Page) {
    if ps == [] then [] else SamplesIn(ps[..|ps| - 1]) + ps[|ps| - 1].samples
  }

  /** A page whose header is outside the range holds no match. */
  lemma PrunedPage(p: Stored, id: nat, q: Range, count: nat)
    requires q.stride > 0 && Consistent(p) && !Overlaps(p.start, p.end, q)
    ensures Take(OfMetric(p.samples, id), q, count) == ([], count)
  {
    ConsistentIff(p);
    forall s | s in OfMetric(p.samples, id) ensures !q.Holds(s.ts) {
      OfMetricMember(p.samples, id, s);
      var i :| 0 <= i < |p.samples| && p.samples[i] == s;
      assert p.start <= s.ts <= p.end;
    }
    TakeNone(OfMetric(p.samples, id), q, count);
  }

  lemma {:induction false} OfMetricMember(ss: Page, id: nat, s: Sample)
    requires s in OfMetric(ss, id)
    ensures s in ss && s.id == id
  {
    if s !in OfMetric(ss[..|ss| - 1], id) {
      assert s == ss[|ss| - 1];
    } else {
      OfMetricMember(ss[..|ss| - 1], id, s);
    }
  }

  /** collectMetricFromFile: header pruning drops no match. */
  method CollectFromPages(id: nat, pages: seq<Stored>, q: Range, count0: nat) returns (out: Page, count: nat)
    requires q.stride > 0 && forall i :: 0 <= i < |pages| ==> Consistent(pages[i])
    ensures (out, count) == Take(OfMetric(SamplesIn(pages), id), q, count0)
  {
    hide Take, OfMetric, Consistent;
    out, count := [], count0;
    NothingTaken(id, q, count0);
    assert pages[..0] == [];
    for i := 0 to |pages|
      invariant (out, count) == Take(OfMetric(SamplesIn(pages[..i]), id), q, count0)
    {
      assert pages[..i + 1][..i] == pages[..i];
      OfMetricAppend(SamplesIn(pages[..i]), pages[i].samples, id);
      TakeAppend(OfMetric(SamplesIn(pages[..i]), id), OfMetric(pages[i].samples, id), q, count0);
      if pages[i].end < q.from || pages[i].start > q.to {
        PrunedPage(pages[i], id, q, count);
        assert out + [] == out;
        continue;
      }
      var more, n := CollectFromPage(id, pages[i].samples, q, count);
      out, count := out + more, n;
    }
    assert pages[..|pages|] == pages;
  }

  // ---------------------------------------------------------------- the V2 file

  function SampleOf(p: Point): Sample { Sample(p.id, p.ts, p.raw) }

  function AsSamples(ps: seq<Point>): (ss: Page)
    ensures |ss| == |ps|
  {
    seq(|ps|, i requires 0 <= i < |ps| => SampleOf(ps[i]))
  }

  /** The metric asked for, with the type the registry has for it. */
  datatype Target = Target(id: nat, valueType: byte)

  /** One index entry: skipped unless it is the metric's and overlaps the range, refused when it is of another type. */
  function QueryEntry(env: Env, f: bytes, byId: map<nat, TimeEntry>, t: Target, e: MetricEntry, q: Range, count: nat)
    : (r: Result<Emitted, ReadError>)
    requires q.stride > 0
  {
    if e.id != t.id || !Overlaps(e.start, e.end, q) then Ok(([], count))
    else
      match WalkEntry(env, f, byId, e)
      case Err(x) => Err(x)
      case Ok(ps) => if e.valueType != t.valueType then Err(ValueTypeMismatch) else Ok(Take(AsSamples(ps), q, count))
  }

  function QueryEntries(env: Env, f: bytes, byId: map<nat, TimeEntry>, t: Target, es: seq<MetricEntry>, q: Range, count: nat)
    : (r: Result<Emitted, ReadError>)
    requires q.stride > 0
  {
    if es == [] then Ok(([], count))
    else
      match QueryEntries(env, f, byId, t, es[..|es| - 1], q, count)
      case Err(x) => Err(x)
      case Ok((out, n)) =>
        match QueryEntry(env, f, byId, t, es[|es| - 1], q, n)
        case Err(x) => Err(x)
        case Ok((more, m)) => Ok((out + more, m))
  }

  /** What a query delivers before it ends, and how it ends: the count afterwards, or the error it meets. */
  datatype Trace = Trace(out: Page, end: Result<nat, ReadError>)

  function TraceEntries(env: Env, f: bytes, byId: map<nat, TimeEntry>, t: Target, es: seq<MetricEntry>, q: Range, count: nat): (r: Trace)
    requires q.stride > 0
  {
    if es == [] then Trace([], Ok(count))
    else
      var prev := TraceEntries(env, f, byId, t, es[..|es| - 1], q, count);
      if prev.end.Err? then prev
      else
        match QueryEntry(env, f, byId, t, es[|es| - 1], q, prev.end.value)
        case Err(x) => Trace(prev.out, Err(x))
        case Ok((more, m)) => Trace(prev.out + more, Ok(m))
  }

  function TraceFile(env: Env, f: bytes, t: Target, q: Range, count: nat): (r: Trace)
    requires q.stride > 0
  {
    match OpenForQuery(env, f)
    case Err(x) => Trace([], Err(x))
    case Ok(h) =>
      match ReadTables(f, h)
      case Err(x) => Trace([], Err(x))
      case Ok(ix) => TraceEntries(env, f, TimeById(ix.times), t, ix.metrics, q, count)
  }

  function Outcome(t: Trace): (r: Result<Emitted, ReadError>) {
    match t.end case Ok(n) => Ok((t.out, n)) case Err(x) => Err(x)
  }

  lemma {:induction false} TraceAnswers(env: Env, f: bytes, byId: map<nat, TimeEntry>, t: Target, es: seq<MetricEntry>, q: Range, count: nat)
    requires q.stride > 0
    ensures Outcome(TraceEntries(env, f, byId, t, es, q, count)) == QueryEntries(env, f, byId, t, es, q, count)
  {
    hide QueryEntry;
    if es != [] {
      TraceAnswers(env, f, byId, t, es[..|es| - 1], q, count);
    }
  }

  /** A query that is not cut short answers what it delivers. */
  lemma TraceFileAnswers(env: Env, f: bytes, t: Target, q: Range, count: nat)
    requires q.stride > 0
    ensures Outcome(TraceFile(env, f, t, q, count)) == QueryFile(env, f, t, q, count)
  {
    hide OpenForQuery, ReadTables, TimeById, TraceEntries, QueryEntries;
    if OpenForQuery(env, f).Ok? && ReadTables(f, OpenForQuery(env, f).value).Ok? {
      var ix := ReadTables(f, OpenForQuery(env, f).value).value;
      TraceAnswers(env, f, TimeById(ix.times), t, ix.metrics, q, count);
    }
  }

  /** collectMetricFromMetricFileV2. */
  function QueryFile(env: Env, f: bytes, t: Target, q: Range, count: nat): (r: Result<Emitted, ReadError>)
    requires q.stride > 0
  {
    match OpenForQuery(env, f)
    case Err(x) => Err(x)
    case Ok(h) =>
      match ReadTables(f, h)
      case Err(x) => Err(x)
      case Ok(ix) => QueryEntries(env, f, TimeById(ix.times), t, ix.metrics, q, count)
  }

  // ---------------------------------------------------------------- the built file

  /** A metric file written from the samples of a data file. */
  datatype BuiltFile = BuiltFile(env: Env, w: Writer, types: Types, all: Page, frames: seq<Vector>, ms: seq<MetricFrame>) {
    ghost predicate Valid() {
      && EnvOk(env, w) && Typed(types, all)
      && PlannedAs(Built(types, all), frames, ms) && InputsFit(w, Built(types, all), frames)
      && |Bytes()| < TWO_64
    }

    function Times(): seq<TimeFrame> { WithIds(frames) }

    function Bytes(): bytes { FileBytes(env, w, WithIds(frames), ms) }
  }

  /** The i-th metric frame holds one metric's samples in stable time order. */
  lemma FrameHolds(b: BuiltFile, i: nat)
    requires b.Valid() && i < |b.ms|
    ensures var p := b.ms[i].input;
            && p.id in FirstSeen(b.all) && b.types(p.id).Some?
            && p == InputOf(p.id, b.types(p.id).value, Ordered(b.all, p.id))
  {
    hide EnvOk, InputsFit, FileBytes, PlannedFrames, PlacedIn, Typed, CheckInput, InputOf, Ordered, FirstSeen;
    var pages := Built(b.types, b.all);
    SortedMembers(pages, b.ms[i].input);
    assert b.ms[i].input in ById(pages);
    var k :| 0 <= k < |pages| && pages[k] == b.ms[i].input;
    SeenTyped(b.types, b.all);
    InputId(FirstSeen(b.all)[k], b.types(FirstSeen(b.all)[k]).value, Ordered(b.all, FirstSeen(b.all)[k]));
  }

  lemma InputId(id: nat, vt: byte, ss: Page)
    ensures InputOf(id, vt, ss).id == id
  {
  }

  lemma BuiltPlanOk(b: BuiltFile)
    requires b.Valid()
    ensures PlanOk(b.env, b.w, b.Times(), b.ms)
  {
    hide EnvOk, InputsFit, PlannedAs, PlanOk, FileBytes, Built;
    PlannedFileOk(b.env, b.w, Built(b.types, b.all), b.frames, b.ms);
  }

  /** Every metric of the data file has exactly one metric frame. */
  lemma OneFrameEach(b: BuiltFile)
    requires b.Valid()
    ensures forall i, j :: 0 <= i < j < |b.ms| ==> b.ms[i].input.id != b.ms[j].input.id
    ensures forall id :: id in FirstSeen(b.all) ==> exists i :: 0 <= i < |b.ms| && b.ms[i].input.id == id
  {
    hide EnvOk, InputsFit, FileBytes, PlannedFrames, PlacedIn, Typed, CheckInput, InputOf, Ordered, FirstSeen;
    var pages := Built(b.types, b.all);
    var ids := FirstSeen(b.all);
    SeenOnce(b.all);
    SeenTyped(b.types, b.all);
    forall k | 0 <= k < |pages| ensures pages[k].id == ids[k] {
      InputId(ids[k], b.types(ids[k]).value, Ordered(b.all, ids[k]));
    }
    DistinctIds(pages);
    forall id | id in ids ensures exists i :: 0 <= i < |b.ms| && b.ms[i].input.id == id {
      var k :| 0 <= k < |ids| && ids[k] == id;
      SortedMembers(pages, pages[k]);
      assert pages[k] in ById(pages);
      var i :| 0 <= i < |pages| && ById(pages)[i] == pages[k];
      assert b.ms[i].input.id == id;
    }
  }

  /** Sorting inputs with distinct ids leaves them distinct. */
  lemma DistinctIds(pages: seq<Input>)
    requires forall i, j :: 0 <= i < j < |pages| ==> pages[i].id != pages[j].id
    ensures forall i, j :: 0 <= i < j < |pages| ==> ById(pages)[i].id != ById(pages)[j].id
  {
    SortIsStable(IdOf, pages);
    var sorted := ById(pages);
    forall i, j | 0 <= i < j < |pages| ensures sorted[i].id != sorted[j].id {
      if sorted[i].id == sorted[j].id {
        var k := sorted[i].id;
        assert WithKey(IdOf, sorted, k) == WithKey(IdOf, pages, k);
        TwoWithKey(sorted, i, j, k);
        OneWithKey(pages, k);
        assert false;
      }
    }
  }

  lemma TwoWithKey(ps: seq<Input>, i: nat, j: nat, k: nat)
    requires i < j < |ps| && ps[i].id == k && ps[j].id == k
    ensures |WithKey(IdOf, ps, k)| >= 2
  {
    var a, m, r := ps[..i], ps[i + 1..j], ps[j + 1..];
    assert ps == (((a + [ps[i]]) + m) + [ps[j]]) + r;
    WithKeyAppend(IdOf, ((a + [ps[i]]) + m) + [ps[j]], r, k);
    WithKeySnoc(IdOf, (a + [ps[i]]) + m, ps[j], k);
    WithKeyAppend(IdOf, a + [ps[i]], m, k);
    WithKeySnoc(IdOf, a, ps[i], k);
  }

  lemma {:induction false} OneWithKey(ps: seq<Input>, k: nat)
    requires forall i, j :: 0 <= i < j < |ps| ==> ps[i].id != ps[j].id
    ensures |WithKey(IdOf, ps, k)| <= 1
  {
    if ps != [] {
      var init, last := ps[..|ps| - 1], ps[|ps| - 1];
      if last.id == k {
        WithKeyNone(IdOf, init, k);
      } else {
        OneWithKey(init, k);
      }
    }
  }

  lemma OrderedFacts(ss: Page, id: nat)
    ensures SortedBy(TimeOf, Ordered(ss, id)) && |Ordered(ss, id)| == |OfMetric(ss, id)|
    ensures forall s :: s in Ordered(ss, id) ==> s.id == id
  {
    SortIsStable(TimeOf, OfMetric(ss, id));
    forall s | s in Ordered(ss, id) ensures s.id == id {
      assert s in multiset(Ordered(ss, id));
      OfMetricMember(ss, id, s);
    }
  }

  lemma PointsOfInput(id: nat, vt: byte, ss: Page)
    requires forall s :: s in ss ==> s.id == id
    ensures AsSamples(PointsOf(InputOf(id, vt, ss))) == ss
    ensures InputOf(id, vt, ss).times == TimesOf(ss)
  {
    var ps := PointsOf(InputOf(id, vt, ss));
    forall i | 0 <= i < |ss| ensures SampleOf(ps[i]) == ss[i] {
      assert ss[i] in ss;
    }
  }

  lemma PrunedFrame(ss: Page, q: Range, count: nat)
    requires q.stride > 0 && ss != [] && SortedBy(TimeOf, ss)
    requires !Overlaps(FirstTs(TimesOf(ss)), LastTs(TimesOf(ss)), q)
    ensures Take(ss, q, count) == ([], count)
  {
    forall s | s in ss ensures !q.Holds(s.ts) {
      var i :| 0 <= i < |ss| && ss[i] == s;
      assert TimeOf(ss[0]) <= TimeOf(ss[i]) <= TimeOf(ss[|ss| - 1]);
    }
    TakeNone(ss, q, count);
  }

  ghost function EntriesOf(b: BuiltFile): (es: seq<MetricEntry>)
    ensures |es| == |b.ms|
  {
    MetricEntries(b.env, b.w, b.ms, HEADER_LEN + |LayoutOf(b.env, b.w, b.Times(), b.ms).times|)
  }

  lemma EntryBounds(b: BuiltFile, i: nat)
    requires i < |b.ms|
    ensures var e, p := EntriesOf(b)[i], b.ms[i].input;
            e.id == p.id && e.valueType == p.valueType && e.start == FirstTs(p.times) && e.end == LastTs(p.times)
  {
    hide LayoutOf, ValuePayload;
  }

  /** What the file answers for a metric it holds: its samples in stable time order, unless the type is another. */
  ghost function Answer(b: BuiltFile, t: Target, q: Range, count: nat): (r: Result<Emitted, ReadError>)
    requires q.stride > 0
  {
    var ss := Ordered(b.all, t.id);
    if b.types(t.id) == Some(t.valueType) then Ok(Take(ss, q, count))
    else if ss == [] || !Overlaps(ss[0].ts, ss[|ss| - 1].ts, q) then Ok(([], count))
    else Err(ValueTypeMismatch)
  }

  lemma EntryAnswers(b: BuiltFile, i: nat, t: Target, q: Range, count: nat)
    requires b.Valid() && i < |b.ms| && q.stride > 0
    ensures var byId := TimeById(TimeEntries(b.env, b.w, b.Times()));
            QueryEntry(b.env, b.Bytes(), byId, t, EntriesOf(b)[i], q, count)
            == if b.ms[i].input.id == t.id then Answer(b, t, q, count) else Ok(([], count))
  {
    hide EnvOk, InputsFit, PlannedAs, PlanOk, FileBytes, Built, WalkEntry, TimeEntries, LayoutOf, Take, Sort,
         InputOf, PointsOf, FirstSeen, OfMetric, Typed, WithIds, AsSamples;
    EntryBounds(b, i);
    if b.ms[i].input.id == t.id {
      FrameHolds(b, i);
      InputType(t.id, b.types(t.id).value, Ordered(b.all, t.id));
      OrderedFacts(b.all, t.id);
      PointsOfInput(t.id, b.types(t.id).value, Ordered(b.all, t.id));
      BuiltPlanOk(b);
      EntryWalks(b.env, b.w, b.Times(), b.ms, i);
      SeenOnce(b.all);
      if !Overlaps(EntriesOf(b)[i].start, EntriesOf(b)[i].end, q) {
        PrunedFrame(Ordered(b.all, t.id), q, count);
      }
    }
  }

  lemma InputType(id: nat, vt: byte, ss: Page)
    ensures InputOf(id, vt, ss).valueType == vt
  {
  }

  /** Whether one of the first k metric frames is the metric's. */
  ghost predicate MetBy(b: BuiltFile, k: nat, id: nat) {
    exists i :: 0 <= i < k && i < |b.ms| && b.ms[i].input.id == id
  }

  lemma MetLast(b: BuiltFile, k: nat, id: nat)
    requires b.Valid() && k < |b.ms|
    ensures MetBy(b, k, id) ==> b.ms[k].input.id != id && MetBy(b, k + 1, id)
    ensures MetBy(b, k + 1, id) <==> MetBy(b, k, id) || b.ms[k].input.id == id
  {
    hide BuiltFile.Valid;
    OneFrameEach(b);
  }

  lemma NoneBefore(a: Page)
    ensures [] + a == a && a + [] == a
  {
  }

  /** After the first k entries: the metric's answer once its entry has been met. */
  lemma {:induction false} EntriesAnswer(b: BuiltFile, k: nat, t: Target, q: Range, count: nat)
    requires b.Valid() && k <= |b.ms| && q.stride > 0
    ensures var byId := TimeById(TimeEntries(b.env, b.w, b.Times()));
            QueryEntries(b.env, b.Bytes(), byId, t, EntriesOf(b)[..k], q, count)
            == if MetBy(b, k, t.id) then Answer(b, t, q, count) else Ok(([], count))
  {
    hide BuiltFile.Valid, FileBytes, TimeEntries, QueryEntry, EntriesOf, Answer;
    if k > 0 {
      EntriesAnswer(b, k - 1, t, q, count);
      assert EntriesOf(b)[..k][..k - 1] == EntriesOf(b)[..k - 1];
      MetLast(b, k - 1, t.id);
      hide MetBy;
      if MetBy(b, k - 1, t.id) {
        if Answer(b, t, q, count).Ok? {
          EntryAnswers(b, k - 1, t, q, Answer(b, t, q, count).value.1);
          NoneBefore(Answer(b, t, q, count).value.0);
        }
      } else {
        EntryAnswers(b, k - 1, t, q, count);
        NoneBefore([]);
        if Answer(b, t, q, count).Ok? {
          NoneBefore(Answer(b, t, q, count).value.0);
        }
      }
    }
  }

  lemma FileIsLong(env: Env, w: Writer, ts: seq<TimeFrame>, ms: seq<MetricFrame>)
    requires PlanOk(env, w, ts, ms)
    ensures |FileBytes(env, w, ts, ms)| >= HEADER_LEN + FOOTER_LEN
  {
    hide PlanOk, FileBytes, LayoutOf, MetricFileProofs.HeadOf;
    FileShape(env, w, ts, ms);
    PartsFit(env, w, ts, ms);
  }

  /**
   For every metric, range, stride and count: asked with the metric's own type the file answers with its samples in
   stable time order; asked with another it refuses exactly when the metric's frame overlaps the range.
   */
  lemma FileAnswers(b: BuiltFile, t: Target, q: Range, count: nat)
    requires b.Valid() && q.stride > 0
    ensures QueryFile(b.env, b.Bytes(), t, q, count) == Answer(b, t, q, count)
  {
    hide EnvOk, InputsFit, PlannedAs, PlanOk, FileBytes, Built, TimeEntries, LayoutOf, QueryEntries, OfMetric, ReadHeader,
         ReadFooter, ReadTables, TimeById;
    BuiltPlanOk(b);
    IndexesRead(b.env, b.w, b.Times(), b.ms);
    FileIsLong(b.env, b.w, b.Times(), b.ms);
    EntriesAnswer(b, |b.ms|, t, q, count);
    assert EntriesOf(b)[..|b.ms|] == EntriesOf(b);
    SeenOnce(b.all);
    OneFrameEach(b);
    OrderedFacts(b.all, t.id);
    if t.id !in FirstSeen(b.all) && MetBy(b, |b.ms|, t.id) {
      var i :| 0 <= i < |b.ms| && b.ms[i].input.id == t.id;
      FrameHolds(b, i);
      assert false;
    }
  }

  /**
   A metric's queries on the file built from a data file, and its queries on the data file itself, give the same
   sequence for every range, stride and count exactly when the metric's samples are in time order in the data file.
   */
  lemma SameAnswersIff(b: BuiltFile, t: Target)
    requires b.Valid() && b.types(t.id) == Some(t.valueType)
    ensures (forall q: Range, count: nat :: q.stride > 0 ==>
              QueryFile(b.env, b.Bytes(), t, q, count) == Ok(Take(OfMetric(b.all, t.id), q, count)))
            <==> SortedBy(TimeOf, OfMetric(b.all, t.id))
  {
    hide BuiltFile.Valid, QueryFile, FileBytes, Sort;
    var raw := OfMetric(b.all, t.id);
    if SortedBy(TimeOf, raw) {
      SortedStays(TimeOf, raw);
      forall q: Range, count: nat | q.stride > 0
        ensures QueryFile(b.env, b.Bytes(), t, q, count) == Ok(Take(raw, q, count))
      {
        FileAnswers(b, t, q, count);
      }
    } else {
      var q := Range(-TWO_63, TWO_63 - 1, 1);
      FileAnswers(b, t, q, 0);
      TakeAll(raw, q, 0);
      TakeAll(Ordered(b.all, t.id), q, 0);
      OrderedFacts(b.all, t.id);
    }
  }
}
