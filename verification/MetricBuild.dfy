/**
 Building the inputs of a metric file from the pages of a data file: count each metric's samples, fill vectors
 of exactly that size, and put each vector in time order.
 */
module MetricBuild {
  import opened Prelude
  import opened Bytes
  import opened Samples
  import opened StableSort
  import opened MetricPlan

  /** The value type the registry pins for a metric id. */
  type Types = nat -> Option<byte>

  datatype BuildError = UnknownMetric | UnsupportedValueType | TypeChanged | NotPlanned | FillOverflow | FillMismatch

  // ---------------------------------------------------------------- what is built

  function OfMetric(ss: Page, id: nat): (r: Page) {
    if ss == [] then []
    else
      var s := ss[|ss| - 1];
      OfMetric(ss[..|ss| - 1], id) + if s.id == id then [s] else []
  }

  lemma OfMetricSnoc(ss: Page, s: Sample, id: nat)
    ensures OfMetric(ss + [s], id) == OfMetric(ss, id) + if s.id == id then [s] else []
  {
    assert (ss + [s])[..|ss|] == ss;
  }

  lemma {:induction false} OfMetricAppend(ss: Page, ts: Page, id: nat)
    ensures OfMetric(ss + ts, id) == OfMetric(ss, id) + OfMetric(ts, id)
    decreases |ts|
  {
    if ts == [] {
      assert ss + ts == ss;
    } else {
      var init, last := ts[..|ts| - 1], ts[|ts| - 1];
      assert ss + ts == (ss + init) + [last];
      OfMetricAppend(ss, init, id);
      OfMetricSnoc(ss + init, last, id);
    }
  }

  /** The metric ids of the stream, in order of first appearance. */
  function FirstSeen(ss: Page): (ids: seq<nat>) {
    if ss == [] then []
    else
      var ids := FirstSeen(ss[..|ss| - 1]);
      var id := ss[|ss| - 1].id;
      if id in ids then ids else ids + [id]
  }

  lemma {:induction false} SeenOnce(ss: Page)
    ensures forall i, j :: 0 <= i < j < |FirstSeen(ss)| ==> FirstSeen(ss)[i] != FirstSeen(ss)[j]
    ensures forall id :: id in FirstSeen(ss) <==> OfMetric(ss, id) != []
  {
    if ss != [] {
      SeenOnce(ss[..|ss| - 1]);
    }
  }

  function TimeOf(s: Sample): int { s.ts }

  function TimesOf(ss: Page): (v: Vector)
    ensures |v| == |ss|
  {
    seq(|ss|, i requires 0 <= i < |ss| => ss[i].ts)
  }

  function RawsOf(ss: Page): (v: seq<nat>)
    ensures |v| == |ss|
  {
    seq(|ss|, i requires 0 <= i < |ss| => ss[i].raw)
  }

  /** An input holding these samples of one metric, in this order. */
  function InputOf(id: nat, vt: byte, ss: Page): Input {
    Input(id, vt, TimesOf(ss), if vt == INT32_SAMPLE then RawsOf(ss) else [], if vt == INT32_SAMPLE then [] else RawsOf(ss))
  }

  /** The metric's samples in stable time order: what both the build and the raw scan produce. */
  function Ordered(ss: Page, id: nat): Page {
    Sort(TimeOf, OfMetric(ss, id))
  }

  ghost predicate Typed(types: Types, ss: Page) {
    forall s :: s in ss ==> types(s.id) == Some(INT32_SAMPLE) || types(s.id) == Some(FLOAT32_SAMPLE)
  }

  // ---------------------------------------------------------------- sorting an input

  /** Sorting indices by the key of what they point at sorts what they point at. */
  lemma {:induction false} SortThrough<S, T>(key: T -> int, f: S -> T, via: S -> int, xs: seq<S>)
    requires forall x :: via(x) == key(f(x))
    ensures Through(f, Sort(via, xs)) == Sort(key, Through(f, xs))
  {
    if xs != [] {
      var init, x := xs[..|xs| - 1], xs[|xs| - 1];
      SortThrough(key, f, via, init);
      InsertThrough(key, f, via, Sort(via, init), x);
      assert Through(f, xs)[..|xs| - 1] == Through(f, init);
    }
  }

  function Through<S, T>(f: S -> T, xs: seq<S>): (ys: seq<T>)
    ensures |ys| == |xs|
  {
    seq(|xs|, i requires 0 <= i < |xs| => f(xs[i]))
  }

  lemma {:induction false} InsertThrough<S, T>(key: T -> int, f: S -> T, via: S -> int, xs: seq<S>, x: S)
    requires forall y :: via(y) == key(f(y))
    ensures Through(f, Insert(via, xs, x)) == Insert(key, Through(f, xs), f(x))
  {
    if xs != [] {
      var init, last := xs[..|xs| - 1], xs[|xs| - 1];
      assert Through(f, xs)[..|xs| - 1] == Through(f, init);
      InsertThrough(key, f, via, init, x);
    }
  }

  /** The sample an index points at. */
  function At(ss: Page): nat -> Sample {
    (i: nat) => if i < |ss| then ss[i] else Sample(0, 0, 0)
  }

  function TimeKey(v: Vector): nat -> int {
    (i: nat) => if i < |v| then v[i] else 0
  }

  /** The indices of v in stable time order. */
  function TimeOrder(v: Vector): (order: seq<nat>)
    ensures |order| == |v|
  {
    Sort<nat>(TimeKey(v), Indices(|v|))
  }

  function Pick<T>(v: seq<T>, order: seq<nat>): (r: seq<T>)
    requires forall k :: 0 <= k < |order| ==> order[k] < |v|
    ensures |r| == |order|
  {
    seq(|order|, k requires 0 <= k < |order| => v[order[k]])
  }

  /** normalizeMetricFilePageInputOrder: values move with their times. */
  method NormalizeOrder(p: Input, ghost ss: Page) returns (r: Input)
    requires p.valueType == INT32_SAMPLE || p.valueType == FLOAT32_SAMPLE
    requires p == InputOf(p.id, p.valueType, ss)
    ensures r == InputOf(p.id, p.valueType, Sort(TimeOf, ss))
  {
    hide Sort, TimeOrder;
    var n := |p.times|;
    var alreadySorted := true;
    var i := 1;
    while i < n && alreadySorted
      invariant 1 <= i && (n > 0 ==> i <= n)
      invariant alreadySorted ==> forall j :: 1 <= j < i && j < n ==> p.times[j - 1] <= p.times[j]
    {
      if p.times[i - 1] > p.times[i] {
        alreadySorted := false;
      }
      i := i + 1;
    }
    if alreadySorted {
      forall j | 1 <= j < |ss| ensures ss[j - 1].ts <= ss[j].ts {
        assert p.times[j - 1] <= p.times[j];
      }
      InOrderIsSorted(ss);
      SortedStays(TimeOf, ss);
      return p;
    }
    var order := TimeOrder(p.times);
    IndexSort(ss);
    r := p.(times := Pick(p.times, order));
    if p.valueType == INT32_SAMPLE {
      r := r.(ints := Pick(p.ints, order));
      assert r.floats == [];
    } else {
      r := r.(floats := Pick(p.floats, order));
      assert r.ints == [];
    }
    assert r.times == TimesOf(Sort(TimeOf, ss));
    assert (if p.valueType == INT32_SAMPLE then r.ints else r.floats) == RawsOf(Sort(TimeOf, ss));
  }

  lemma InOrderIsSorted(ss: Page)
    requires forall j :: 1 <= j < |ss| ==> ss[j - 1].ts <= ss[j].ts
    ensures SortedBy(TimeOf, ss)
  {
    forall i, j | 0 <= i < j < |ss| ensures TimeOf(ss[i]) <= TimeOf(ss[j]) {
      StepsUp(ss, i, j);
    }
  }

  lemma {:induction false} StepsUp(ss: Page, i: nat, j: nat)
    requires forall k :: 1 <= k < |ss| ==> ss[k - 1].ts <= ss[k].ts
    requires i <= j < |ss|
    ensures ss[i].ts <= ss[j].ts
    decreases j
  {
    if i < j {
      StepsUp(ss, i, j - 1);
    }
  }

  lemma OrderInRange(v: Vector)
    ensures forall k :: 0 <= k < |v| ==> TimeOrder(v)[k] < |v|
  {
    var n, order := |v|, TimeOrder(v);
    SortIsStable<nat>(TimeKey(v), Indices(n));
    hide Sort;
    forall k | 0 <= k < n ensures order[k] < n {
      assert order[k] in multiset(order);
    }
  }

  lemma ThroughIndices(ss: Page)
    ensures Through(At(ss), Indices(|ss|)) == ss
    ensures forall k: nat :: TimeKey(TimesOf(ss))(k) == TimeOf(At(ss)(k))
  {
  }

  lemma OrderThrough(ss: Page)
    ensures Through(At(ss), TimeOrder(TimesOf(ss))) == Sort(TimeOf, ss)
  {
    hide Sort, Through, Indices;
    ThroughIndices(ss);
    SortThrough(TimeOf, At(ss), TimeKey(TimesOf(ss)), Indices(|ss|));
  }

  /** The sorted index list points at the sorted samples. */
  lemma IndexSort(ss: Page)
    ensures var order := TimeOrder(TimesOf(ss));
            forall k :: 0 <= k < |ss| ==> order[k] < |ss| && ss[order[k]] == Sort(TimeOf, ss)[k]
  {
    hide Sort, TimeOrder;
    var order := TimeOrder(TimesOf(ss));
    OrderInRange(TimesOf(ss));
    OrderThrough(ss);
    forall k | 0 <= k < |ss| ensures order[k] < |ss| && ss[order[k]] == Sort(TimeOf, ss)[k] {
      assert Through<nat, Sample>(At(ss), order)[k] == At(ss)(order[k]);
    }
  }

  // ---------------------------------------------------------------- counting

  datatype BuildPlan = BuildPlan(valueType: byte, points: nat)

  /** After the samples ss: every metric seen, its type, and how many samples it has. */
  ghost predicate Counted(types: Types, ss: Page, totals: map<nat, BuildPlan>, order: seq<nat>) {
    && order == FirstSeen(ss)
    && (forall id :: id in totals <==> id in order)
    && (forall id :: id in totals ==> types(id).Some? && totals[id] == BuildPlan(types(id).value, |OfMetric(ss, id)|))
  }

  lemma CountOne(types: Types, ss: Page, s: Sample, totals: map<nat, BuildPlan>, order: seq<nat>)
    requires Counted(types, ss, totals, order) && types(s.id).Some?
    ensures var vt := types(s.id).value;
            if s.id in totals
            then totals[s.id].valueType == vt
                 && Counted(types, ss + [s], totals[s.id := totals[s.id].(points := totals[s.id].points + 1)], order)
            else Counted(types, ss + [s], totals[s.id := BuildPlan(vt, 1)], order + [s.id])
  {
    assert (ss + [s])[..|ss|] == ss;
    SeenOnce(ss);
    forall id ensures OfMetric(ss + [s], id) == OfMetric(ss, id) + if s.id == id then [s] else [] {
      OfMetricSnoc(ss, s, id);
    }
  }

  lemma CountNone(types: Types)
    ensures Counted(types, [], map[], [])
  {
  }

  ghost predicate AllKnown(types: Types, ss: Page) {
    forall s :: s in ss ==> types(s.id).Some?
  }

  /** scanMetricBuildPlansFromDataFile, over one page. */
  method CountPage(types: Types, page: Page, totals0: map<nat, BuildPlan>, order0: seq<nat>, ghost ss: Page)
    returns (r: Result<(map<nat, BuildPlan>, seq<nat>), BuildError>)
    requires Counted(types, ss, totals0, order0)
    ensures r.Err? <==> !AllKnown(types, page)
    ensures r.Err? ==> r.error == UnknownMetric
    ensures r.Ok? ==> Counted(types, ss + page, r.value.0, r.value.1)
  {
    hide Counted, FirstSeen, OfMetric;
    var totals, order := totals0, order0;
    assert ss + page[..0] == ss;
    for i := 0 to |page|
      invariant Counted(types, ss + page[..i], totals, order)
      invariant forall j :: 0 <= j < i ==> types(page[j].id).Some?
    {
      var id := page[i].id;
      var vt := types(id);
      if vt.None? {
        assert page[i] in page;
        return Err(UnknownMetric);
      }
      CountOne(types, ss + page[..i], page[i], totals, order);
      assert ss + page[..i + 1] == ss + page[..i] + [page[i]];
      if id in totals {
        if totals[id].valueType != vt.value { return Err(TypeChanged); }
        totals := totals[id := totals[id].(points := totals[id].points + 1)];
      } else {
        totals := totals[id := BuildPlan(vt.value, 1)];
        order := order + [id];
      }
    }
    assert page[..|page|] == page;
    return Ok((totals, order));
  }

  // ---------------------------------------------------------------- filling

  datatype Cursor = Cursor(index: nat, next: nat)

  function Slot(p: Input): seq<nat> {
    if p.valueType == INT32_SAMPLE then p.ints else p.floats
  }

  /** The vectors of one metric, sized for all its samples and filled with those among the first ss. */
  ghost predicate Filling(types: Types, all: Page, ss: Page, id: nat, p: Input, next: nat) {
    && p.id == id && types(id) == Some(p.valueType)
    && (p.valueType == INT32_SAMPLE || p.valueType == FLOAT32_SAMPLE)
    && |p.times| == |Slot(p)| == |OfMetric(all, id)| && (if p.valueType == INT32_SAMPLE then p.floats else p.ints) == []
    && next == |OfMetric(ss, id)| && next <= |p.times|
    && p.times[..next] == TimesOf(OfMetric(ss, id)) && Slot(p)[..next] == RawsOf(OfMetric(ss, id))
  }

  ghost predicate Filled(types: Types, all: Page, ss: Page, out: seq<Input>, cursors: map<nat, Cursor>) {
    var order := FirstSeen(all);
    && |out| == |order| && (forall id :: id in cursors <==> id in order)
    && forall i :: 0 <= i < |order| ==>
         cursors[order[i]].index == i && Filling(types, all, ss, order[i], out[i], cursors[order[i]].next)
  }

  /** A vector sized by the count always has room for the next sample. */
  lemma RoomToFill(all: Page, ss: Page, s: Sample, rest: Page)
    requires all == ss + [s] + rest
    ensures |OfMetric(ss, s.id)| < |OfMetric(all, s.id)|
    ensures s.id in FirstSeen(all)
  {
    OfMetricAppend(ss + [s], rest, s.id);
    OfMetricSnoc(ss, s, s.id);
    SeenOnce(all);
  }

  function Put(p: Input, at: nat, s: Sample): Input
    requires at < |p.times| == |Slot(p)|
  {
    if p.valueType == INT32_SAMPLE then p.(times := p.times[at := s.ts], ints := p.ints[at := s.raw])
    else p.(times := p.times[at := s.ts], floats := p.floats[at := s.raw])
  }

  lemma PutKeepsFilling(types: Types, all: Page, ss: Page, s: Sample, p: Input, next: nat)
    requires Filling(types, all, ss, s.id, p, next) && next < |p.times|
    ensures Filling(types, all, ss + [s], s.id, Put(p, next, s), next + 1)
  {
    OfMetricSnoc(ss, s, s.id);
    var q := Put(p, next, s);
    var mine := OfMetric(ss, s.id);
    assert q.times[..next + 1] == p.times[..next] + [s.ts] == TimesOf(mine + [s]);
    assert Slot(q)[..next + 1] == Slot(p)[..next] + [s.raw] == RawsOf(mine + [s]);
  }

  lemma FillOne(types: Types, all: Page, ss: Page, s: Sample, out: seq<Input>, cursors: map<nat, Cursor>)
    requires Filled(types, all, ss, out, cursors) && s.id in cursors
    requires |OfMetric(ss, s.id)| < |OfMetric(all, s.id)|
    ensures var c := cursors[s.id];
            && c.index < |out| && types(s.id) == Some(out[c.index].valueType)
            && c.next < |out[c.index].times| == |Slot(out[c.index])|
            && Filled(types, all, ss + [s], out[c.index := Put(out[c.index], c.next, s)], cursors[s.id := c.(next := c.next + 1)])
  {
    hide Filling, OfMetric, FirstSeen;
    var order := FirstSeen(all);
    var k :| 0 <= k < |order| && order[k] == s.id;
    var c := cursors[s.id];
    FillingGives(types, all, ss, s.id, out[k], c.next);
    PutKeepsFilling(types, all, ss, s, out[k], c.next);
    SeenOnce(all);
    forall i | 0 <= i < |order| && i != k ensures Filling(types, all, ss + [s], order[i], out[i], cursors[order[i]].next) {
      OtherStays(types, all, ss, s, order[i], out[i], cursors[order[i]].next);
    }
  }

  lemma FillingGives(types: Types, all: Page, ss: Page, id: nat, p: Input, next: nat)
    requires Filling(types, all, ss, id, p, next)
    ensures types(id) == Some(p.valueType) && next == |OfMetric(ss, id)|
    ensures |p.times| == |Slot(p)| == |OfMetric(all, id)|
  {
  }

  lemma OtherStays(types: Types, all: Page, ss: Page, s: Sample, id: nat, p: Input, next: nat)
    requires Filling(types, all, ss, id, p, next) && id != s.id
    ensures Filling(types, all, ss + [s], id, p, next)
  {
    OfMetricSnoc(ss, s, id);
    assert OfMetric(ss, id) + [] == OfMetric(ss, id);
  }

  /** appendPageSamplesToMetricPages: none of its refusals can happen after the count. */
  method FillPage(types: Types, page: Page, out0: seq<Input>, cursors0: map<nat, Cursor>,
                  ghost all: Page, ghost ss: Page, ghost rest: Page)
    returns (r: Result<(seq<Input>, map<nat, Cursor>), BuildError>)
    requires all == ss + page + rest && Filled(types, all, ss, out0, cursors0)
    ensures r.Ok? && Filled(types, all, ss + page, r.value.0, r.value.1)
  {
    hide Filled, OfMetric, FirstSeen;
    var out: seq<Input>, cursors: map<nat, Cursor> := out0, cursors0;
    assert ss + page[..0] == ss;
    for i := 0 to |page|
      invariant Filled(types, all, ss + page[..i], out, cursors)
    {
      var s := page[i];
      assert all == (ss + page[..i]) + [s] + (page[i + 1..] + rest);
      RoomToFill(all, ss + page[..i], s, page[i + 1..] + rest);
      CursorFor(types, all, ss + page[..i], out, cursors, s.id);
      FillOne(types, all, ss + page[..i], s, out, cursors);
      assert ss + page[..i + 1] == ss + page[..i] + [s];
      var vt := types(s.id);
      if vt.None? { return Err(UnknownMetric); }
      if s.id !in cursors { return Err(NotPlanned); }
      var cursor := cursors[s.id];
      if out[cursor.index].valueType != vt.value { return Err(TypeChanged); }
      if cursor.next >= |out[cursor.index].times| { return Err(FillOverflow); }
      out := out[cursor.index := Put(out[cursor.index], cursor.next, s)];
      cursors := cursors[s.id := cursor.(next := cursor.next + 1)];
    }
    assert page[..|page|] == page;
    return Ok((out, cursors));
  }

  lemma CursorFor(types: Types, all: Page, ss: Page, out: seq<Input>, cursors: map<nat, Cursor>, id: nat)
    requires Filled(types, all, ss, out, cursors) && id in FirstSeen(all)
    ensures id in cursors
  {
  }

  lemma FlattenMid<T>(a: seq<seq<T>>, x: seq<T>, c: seq<seq<T>>)
    ensures Flatten((a + [x]) + c) == Flatten(a) + x + Flatten(c)
  {
    hide Flatten;
    FlattenAppend(a + [x], c);
    FlattenSnoc(a, x);
  }

  lemma FlattenSplit<T>(ps: seq<seq<T>>, k: nat)
    requires k < |ps|
    ensures Flatten(ps) == Flatten(ps[..k]) + ps[k] + Flatten(ps[k + 1..])
    ensures Flatten(ps[..k + 1]) == Flatten(ps[..k]) + ps[k]
  {
    hide Flatten;
    Rejoin(ps, k);
    FlattenMid(ps[..k], ps[k], ps[k + 1..]);
    FlattenSnoc(ps[..k], ps[k]);
  }

  lemma Rejoin<T>(s: seq<T>, k: nat)
    requires k < |s|
    ensures s == (s[..k] + [s[k]]) + s[k + 1..] && s[..k + 1] == s[..k] + [s[k]]
  {
  }

  /** The first pass over the file. */
  method CountPages(types: Types, pages: seq<Page>) returns (r: Result<(map<nat, BuildPlan>, seq<nat>), BuildError>)
    ensures r.Err? <==> !AllKnown(types, Flatten(pages))
    ensures r.Err? ==> r.error == UnknownMetric
    ensures r.Ok? ==> Counted(types, Flatten(pages), r.value.0, r.value.1)
  {
    hide Counted, Flatten;
    var totals, order := map[], [];
    CountNone(types);
    EmptyFlatten(pages);
    for k := 0 to |pages|
      invariant Counted(types, Flatten(pages[..k]), totals, order)
      invariant AllKnown(types, Flatten(pages[..k]))
    {
      FlattenSplit(pages, k);
      var one := CountPage(types, pages[k], totals, order, Flatten(pages[..k]));
      if one.Err? {
        ghost var s :| s in pages[k] && types(s.id).None?;
        FlattenMember(pages, s);
        return one;
      }
      totals, order := one.value.0, one.value.1;
    }
    assert pages[..|pages|] == pages;
    return Ok((totals, order));
  }

  lemma EmptyFlatten(pages: seq<Page>)
    ensures Flatten(pages[..0]) == []
  {
    assert pages[..0] == [];
  }

  lemma CountedGives(types: Types, ss: Page, totals: map<nat, BuildPlan>, order: seq<nat>)
    requires Counted(types, ss, totals, order)
    ensures order == FirstSeen(ss)
    ensures forall id :: id in order ==>
              id in totals && types(id).Some? && totals[id] == BuildPlan(types(id).value, |OfMetric(ss, id)|)
  {
  }

  /** Vectors of the counted sizes, none of them filled. */
  method Allocate(types: Types, totals: map<nat, BuildPlan>, order: seq<nat>, ghost all: Page)
    returns (r: Result<(seq<Input>, map<nat, Cursor>), BuildError>)
    requires Counted(types, all, totals, order)
    ensures r.Err? <==> exists id :: id in order && types(id) != Some(INT32_SAMPLE) && types(id) != Some(FLOAT32_SAMPLE)
    ensures r.Err? ==> r.error == UnsupportedValueType
    ensures r.Ok? ==> Filled(types, all, [], r.value.0, r.value.1)
  {
    hide OfMetric, FirstSeen, Filling, Counted;
    var out: seq<Input>, cursors: map<nat, Cursor> := [], map[];
    SeenOnce(all);
    CountedGives(types, all, totals, order);
    for i := 0 to |order|
      invariant |out| == i
      invariant forall id :: id in cursors <==> id in order[..i]
      invariant forall j :: 0 <= j < i ==>
                  cursors[order[j]] == Cursor(j, 0) && Filling(types, all, [], order[j], out[j], 0)
      invariant forall j :: 0 <= j < i ==> types(order[j]) == Some(INT32_SAMPLE) || types(order[j]) == Some(FLOAT32_SAMPLE)
    {
      var id := order[i];
      var plan := totals[id];
      if plan.valueType != INT32_SAMPLE && plan.valueType != FLOAT32_SAMPLE { return Err(UnsupportedValueType); }
      var times := seq(plan.points, _ => 0);
      var slots := seq(plan.points, _ => 0);
      var page := if plan.valueType == INT32_SAMPLE then Input(id, plan.valueType, times, slots, [])
                  else Input(id, plan.valueType, times, [], slots);
      FreshFilling(types, all, id, page);
      cursors := cursors[id := Cursor(i, 0)];
      out := out + [page];
    }
    return Ok((out, cursors));
  }

  lemma FreshFilling(types: Types, all: Page, id: nat, p: Input)
    requires p.id == id && types(id) == Some(p.valueType) && (p.valueType == INT32_SAMPLE || p.valueType == FLOAT32_SAMPLE)
    requires |p.times| == |Slot(p)| == |OfMetric(all, id)|
    requires (if p.valueType == INT32_SAMPLE then p.floats else p.ints) == []
    ensures Filling(types, all, [], id, p, 0)
  {
  }

  /** What buildCoalescedMetricInputsFromDataFile returns for the samples of a file. */
  ghost function Built(types: Types, ss: Page): (r: seq<Input>)
    requires Typed(types, ss)
    ensures |r| == |FirstSeen(ss)|
  {
    SeenTyped(types, ss);
    seq(|FirstSeen(ss)|, i requires 0 <= i < |FirstSeen(ss)| =>
      InputOf(FirstSeen(ss)[i], types(FirstSeen(ss)[i]).value, Ordered(ss, FirstSeen(ss)[i])))
  }

  lemma {:induction false} SeenTyped(types: Types, ss: Page)
    requires Typed(types, ss)
    ensures forall id :: id in FirstSeen(ss) ==> types(id) == Some(INT32_SAMPLE) || types(id) == Some(FLOAT32_SAMPLE)
  {
    if ss != [] {
      SeenTyped(types, ss[..|ss| - 1]);
      assert ss[|ss| - 1] in ss;
    }
  }

  lemma {:induction false} SeenOccurs(ss: Page, id: nat)
    requires id in FirstSeen(ss)
    ensures exists s :: s in ss && s.id == id
  {
    if id in FirstSeen(ss[..|ss| - 1]) {
      SeenOccurs(ss[..|ss| - 1], id);
    } else {
      assert ss[|ss| - 1] in ss;
    }
  }

  lemma FilledInput(types: Types, all: Page, id: nat, p: Input, next: nat)
    requires Filling(types, all, all, id, p, next)
    ensures next == |p.times| && p == InputOf(id, p.valueType, OfMetric(all, id))
  {
    assert p.times[..next] == p.times && Slot(p)[..next] == Slot(p);
  }

  /** buildCoalescedMetricInputsFromDataFile: count, allocate, fill, check, sort. */
  method BuildInputs(types: Types, pages: seq<Page>) returns (r: Result<seq<Input>, BuildError>)
    ensures r.Ok? <==> Typed(types, Flatten(pages))
    ensures r.Ok? ==> r.value == Built(types, Flatten(pages))
    ensures r.Err? ==> r.error == if AllKnown(types, Flatten(pages)) then UnsupportedValueType else UnknownMetric
  {
    hide Flatten, Counted, Filled, OfMetric, FirstSeen, Filling;
    ghost var all := Flatten(pages);
    TypedIsKnown(types, all);
    var counted := CountPages(types, pages);
    if counted.Err? { return Err(counted.error); }
    var order := counted.value.1;
    OrderIsSeen(types, all, counted.value.0, order);
    var room := Allocate(types, counted.value.0, order, all);
    if room.Err? {
      ghost var id :| id in order && types(id) != Some(INT32_SAMPLE) && types(id) != Some(FLOAT32_SAMPLE);
      SeenOccurs(all, id);
      return Err(room.error);
    }
    var out, cursors := room.value.0, room.value.1;
    EmptyFlatten(pages);
    for k := 0 to |pages|
      invariant Filled(types, all, Flatten(pages[..k]), out, cursors)
    {
      FlattenSplit(pages, k);
      var one := FillPage(types, pages[k], out, cursors, all, Flatten(pages[..k]), Flatten(pages[k + 1..]));
      out, cursors := one.value.0, one.value.1;
    }
    assert pages[..|pages|] == pages;
    AllocatedTyped(types, all, order);
    var mismatch := CheckFilled(types, order, out, cursors, all);
    if mismatch { return Err(FillMismatch); }
    var sorted := SortAll(types, order, out, cursors, all);
    return Ok(sorted);
  }

  lemma TypedIsKnown(types: Types, ss: Page)
    ensures Typed(types, ss) ==> AllKnown(types, ss)
  {
  }

  lemma OrderIsSeen(types: Types, all: Page, totals: map<nat, BuildPlan>, order: seq<nat>)
    requires Counted(types, all, totals, order)
    ensures order == FirstSeen(all)
  {
  }

  lemma AllocatedTyped(types: Types, all: Page, order: seq<nat>)
    requires order == FirstSeen(all)
    requires forall id :: id in order ==> types(id) == Some(INT32_SAMPLE) || types(id) == Some(FLOAT32_SAMPLE)
    ensures Typed(types, all)
  {
    forall s | s in all ensures types(s.id) == Some(INT32_SAMPLE) || types(s.id) == Some(FLOAT32_SAMPLE) {
      SeenIs(all, s);
    }
  }

  lemma {:induction false} SeenIs(ss: Page, s: Sample)
    requires s in ss
    ensures s.id in FirstSeen(ss)
  {
    if s != ss[|ss| - 1] {
      assert ss == ss[..|ss| - 1] + [ss[|ss| - 1]];
      SeenIs(ss[..|ss| - 1], s);
    }
  }

  /** The check after filling: every cursor is at the end of its vector. */
  method CheckFilled(types: Types, order: seq<nat>, out: seq<Input>, cursors: map<nat, Cursor>, ghost all: Page)
    returns (mismatch: bool)
    requires order == FirstSeen(all) && Filled(types, all, all, out, cursors)
    ensures !mismatch
  {
    hide Filling, OfMetric, FirstSeen;
    for i := 0 to |order| {
      FilledInput(types, all, order[i], out[i], cursors[order[i]].next);
      var cursor := cursors[order[i]];
      if cursor.next != |out[cursor.index].times| { return true; }
    }
    return false;
  }

  method SortAll(types: Types, order: seq<nat>, out: seq<Input>, cursors: map<nat, Cursor>, ghost all: Page)
    returns (r: seq<Input>)
    requires order == FirstSeen(all) && Filled(types, all, all, out, cursors) && Typed(types, all)
    ensures r == Built(types, all)
  {
    hide OfMetric, FirstSeen, Sort, InputOf;
    r := [];
    SeenTyped(types, all);
    for i := 0 to |out|
      invariant |r| == i && |Built(types, all)| == |out|
      invariant forall k :: 0 <= k < i ==> r[k] == Built(types, all)[k]
    {
      FilledInput(types, all, order[i], out[i], cursors[order[i]].next);
      FillingGives(types, all, all, order[i], out[i], cursors[order[i]].next);
      var p := NormalizeOrder(out[i], OfMetric(all, order[i]));
      r := r + [p];
    }
  }
}
