/**
 Aggregate queries: the sample stream is cut into runs of equal bucket start, and each run is reduced either by
 streaming accumulators or by the batch functions. Values are exact reals; rounding is not modelled.
 */
module Aggregates {
  import opened Prelude
  import opened Bytes
  import opened Names

  /** The largest finite float32, from which the batch minimum and maximum start. */
  const MAX_FLOAT32: real := 340282346638528859811704183484516925440.0

  /** `Other` stands for the percentiles and the trimmed average, which need the whole run. */
  datatype Kind = MinKind | MaxKind | SumKind | AvgKind | CountKind | Other(compute: seq<real> -> real)

  datatype AggregateError =
    | NoPoints
    | InvalidRange
    | InvalidWindow
    | UnsupportedAggregate
    | NoAggregate
    | RangeFailed
    | CallbackFailed

  /** One sample of the stream. */
  datatype Value = Value(ts: Timestamp, value: real)

  // ---------------------------------------------------------------- reductions

  function SumOf(s: seq<real>): real {
    if s == [] then 0.0 else SumOf(s[..|s| - 1]) + s[|s| - 1]
  }

  /** The smallest of `start` and the points. */
  function MinFrom(start: real, s: seq<real>): (m: real) {
    if s == [] then start
    else
      var m := MinFrom(start, s[..|s| - 1]);
      if s[|s| - 1] < m then s[|s| - 1] else m
  }

  function MaxFrom(start: real, s: seq<real>): (m: real) {
    if s == [] then start
    else
      var m := MaxFrom(start, s[..|s| - 1]);
      if s[|s| - 1] > m then s[|s| - 1] else m
  }

  /** The Compute methods, on a run that is not empty. */
  function Compute(kind: Kind, points: seq<real>): (v: real)
    requires points != []
  {
    match kind
    case MinKind => MinFrom(MAX_FLOAT32, points)
    case MaxKind => MaxFrom(-MAX_FLOAT32, points)
    case SumKind => SumOf(points)
    case AvgKind => SumOf(points) / |points| as real
    case CountKind => |points| as real
    case Other(f) => f(points)
  }

  lemma {:induction false} MinIsLeast(start: real, s: seq<real>)
    ensures MinFrom(start, s) <= start && forall v :: v in s ==> MinFrom(start, s) <= v
    ensures MinFrom(start, s) == start || MinFrom(start, s) in s
  {
    if s != [] {
      assert s == s[..|s| - 1] + [s[|s| - 1]];
      MinIsLeast(start, s[..|s| - 1]);
    }
  }

  lemma {:induction false} MaxIsGreatest(start: real, s: seq<real>)
    ensures MaxFrom(start, s) >= start && forall v :: v in s ==> MaxFrom(start, s) >= v
    ensures MaxFrom(start, s) == start || MaxFrom(start, s) in s
  {
    if s != [] {
      assert s == s[..|s| - 1] + [s[|s| - 1]];
      MaxIsGreatest(start, s[..|s| - 1]);
    }
  }

  /** v is the least point of s. */
  ghost predicate IsMin(s: seq<real>, v: real) {
    v in s && forall x :: x in s ==> v <= x
  }

  ghost predicate IsMax(s: seq<real>, v: real) {
    v in s && forall x :: x in s ==> v >= x
  }

  lemma PrefixStep(start: real, s: seq<real>, i: nat)
    requires i < |s|
    ensures MinFrom(start, s[..i + 1]) == (if s[i] < MinFrom(start, s[..i]) then s[i] else MinFrom(start, s[..i]))
    ensures MaxFrom(start, s[..i + 1]) == (if s[i] > MaxFrom(start, s[..i]) then s[i] else MaxFrom(start, s[..i]))
    ensures SumOf(s[..i + 1]) == SumOf(s[..i]) + s[i]
  {
    assert s[..i + 1][..i] == s[..i];
  }

  lemma PrefixStart(start: real, s: seq<real>)
    ensures MinFrom(start, s[..0]) == start && MaxFrom(start, s[..0]) == start && SumOf(s[..0]) == 0.0
    ensures s[..|s|] == s
  {
    assert s[..0] == [];
  }

  /** The loops of the Compute methods. */
  method BatchCompute(kind: Kind, points: seq<real>) returns (r: Result<real, AggregateError>)
    ensures r == if points == [] then Err(NoPoints) else Ok(Compute(kind, points))
  {
    hide MinFrom, MaxFrom, SumOf;
    if |points| == 0 { return Err(NoPoints); }
    PrefixStart(MAX_FLOAT32, points);
    PrefixStart(-MAX_FLOAT32, points);
    var minVal, maxVal, sum := MAX_FLOAT32, -MAX_FLOAT32, 0.0;
    for i := 0 to |points|
      invariant minVal == MinFrom(MAX_FLOAT32, points[..i]) && maxVal == MaxFrom(-MAX_FLOAT32, points[..i])
      invariant sum == SumOf(points[..i])
    {
      PrefixStep(MAX_FLOAT32, points, i);
      PrefixStep(-MAX_FLOAT32, points, i);
      if points[i] < minVal {
        minVal := points[i];
      }
      if points[i] > maxVal {
        maxVal := points[i];
      }
      sum := sum + points[i];
    }
    match kind {
      case MinKind => return Ok(minVal);
      case MaxKind => return Ok(maxVal);
      case SumKind => return Ok(sum);
      case AvgKind => return Ok(sum / |points| as real);
      case CountKind => return Ok(|points| as real);
      case Other(f) => return Ok(f(points));
    }
  }

  // ---------------------------------------------------------------- the streaming accumulators

  class Accumulator {
    var sum: real
    var min: real
    var max: real
    var count: nat

    /** The fields summarise the points added since the last reset. */
    ghost predicate Holds(points: seq<real>)
      reads this
    {
      && count == |points| && sum == SumOf(points)
      && (points != [] ==> min == MinFrom(points[0], points) && max == MaxFrom(points[0], points))
    }

    constructor ()
      ensures Holds([])
    {
      sum, min, max, count := 0.0, 0.0, 0.0, 0;
    }

    method Add(value: real, ghost points: seq<real>)
      requires Holds(points)
      modifies this
      ensures Holds(points + [value])
    {
      AddOne(points, value);
      if count == 0 {
        min := value;
        max := value;
      } else {
        if value < min {
          min := value;
        }
        if value > max {
          max := value;
        }
      }
      sum := sum + value;
      count := count + 1;
    }

    method Reset()
      modifies this
      ensures Holds([])
    {
      sum, min, max, count := 0.0, 0.0, 0.0, 0;
    }

    /** aggregateBucketAccumulatorValue, for the kinds that stream. */
    function ValueOf(kind: Kind): Result<real, AggregateError>
      requires !kind.Other?
      reads this
    {
      if count == 0 then Err(NoPoints)
      else
        match kind
        case MinKind => Ok(min)
        case MaxKind => Ok(max)
        case SumKind => Ok(sum)
        case AvgKind => Ok(sum / count as real)
        case CountKind => Ok(count as real)
    }
  }

  lemma AddOne(points: seq<real>, value: real)
    ensures var next := points + [value];
            && SumOf(next) == SumOf(points) + value
            && (points == [] ==> MinFrom(next[0], next) == value && MaxFrom(next[0], next) == value)
            && (points != [] ==>
                  && MinFrom(next[0], next) == (if value < MinFrom(points[0], points) then value else MinFrom(points[0], points))
                  && MaxFrom(next[0], next) == (if value > MaxFrom(points[0], points) then value else MaxFrom(points[0], points)))
  {
    var next := points + [value];
    assert next[..|next| - 1] == points;
  }

  /** What the accumulator answers for a run. */
  function Streamed(kind: Kind, points: seq<real>): (v: real)
    requires points != [] && !kind.Other?
  {
    match kind
    case MinKind => MinFrom(points[0], points)
    case MaxKind => MaxFrom(points[0], points)
    case SumKind => SumOf(points)
    case AvgKind => SumOf(points) / |points| as real
    case CountKind => |points| as real
  }

  lemma StreamedIsExtreme(points: seq<real>)
    requires points != []
    ensures IsMin(points, Streamed(MinKind, points)) && IsMax(points, Streamed(MaxKind, points))
  {
    assert points[0] in points;
    MinIsLeast(points[0], points);
    MaxIsGreatest(points[0], points);
  }

  /**
   The streaming sum, average and count equal the batch ones on every run; the minimum does exactly when some point
   is not above the largest finite float32, and the maximum exactly when some point is not below its negative.
   */
  lemma StreamingEqualsBatchIff(kind: Kind, points: seq<real>)
    requires points != [] && !kind.Other?
    ensures Streamed(kind, points) == Compute(kind, points)
            <==> match kind
                 case MinKind => exists v :: v in points && v <= MAX_FLOAT32
                 case MaxKind => exists v :: v in points && v >= -MAX_FLOAT32
                 case _ => true
  {
    assert points[0] in points;
    MinIsLeast(points[0], points);
    MinIsLeast(MAX_FLOAT32, points);
    MaxIsGreatest(points[0], points);
    MaxIsGreatest(-MAX_FLOAT32, points);
  }

  // ---------------------------------------------------------------- runs

  /** Consecutive samples with one bucket start. */
  datatype Run = Run(start: Timestamp, points: seq<real>)

  type Floor = Timestamp -> Timestamp

  /** The stream cut wherever the bucket start changes. */
  function Runs(floor: Floor, vs: seq<Value>): (rs: seq<Run>) {
    if vs == [] then [] else AddValue(Runs(floor, vs[..|vs| - 1]), floor(vs[|vs| - 1].ts), vs[|vs| - 1].value)
  }

  function AddValue(rs: seq<Run>, start: Timestamp, v: real): (r: seq<Run>) {
    if rs != [] && rs[|rs| - 1].start == start
    then rs[..|rs| - 1] + [rs[|rs| - 1].(points := rs[|rs| - 1].points + [v])]
    else rs + [Run(start, [v])]
  }

  function PointsOf(rs: seq<Run>): (s: seq<real>) {
    if rs == [] then [] else PointsOf(rs[..|rs| - 1]) + rs[|rs| - 1].points
  }

  function StartsOf(rs: seq<Run>): (s: seq<Timestamp>) {
    if rs == [] then [] else StartsOf(rs[..|rs| - 1]) + seq(|rs[|rs| - 1].points|, _ => rs[|rs| - 1].start)
  }

  function CountIn(rs: seq<Run>): nat {
    if rs == [] then 0 else CountIn(rs[..|rs| - 1]) + |rs[|rs| - 1].points|
  }

  function ValuesOf(vs: seq<Value>): (s: seq<real>)
    ensures |s| == |vs|
  {
    seq(|vs|, i requires 0 <= i < |vs| => vs[i].value)
  }

  function FloorsOf(floor: Floor, vs: seq<Value>): (s: seq<Timestamp>)
    ensures |s| == |vs|
  {
    seq<Timestamp>(|vs|, i requires 0 <= i < |vs| => floor(vs[i].ts))
  }

  /** No run is empty, and neighbours differ in their start. */
  ghost predicate Shaped(rs: seq<Run>) {
    && (forall i :: 0 <= i < |rs| ==> rs[i].points != [])
    && (forall i, j :: 0 <= i && j == i + 1 < |rs| ==> rs[i].start != rs[j].start)
  }

  /**
   The runs are consecutive, lose and repeat nothing, none is empty, each holds samples of one bucket start, and
   neighbours differ in theirs; so the counts add up to the number of samples.
   */
  lemma {:induction false} RunsPartition(floor: Floor, vs: seq<Value>)
    ensures var rs := Runs(floor, vs);
            && PointsOf(rs) == ValuesOf(vs) && StartsOf(rs) == FloorsOf(floor, vs)
            && Shaped(rs) && CountIn(rs) == |vs|
  {
    hide AddValue, PointsOf, StartsOf, CountIn, Shaped;
    if vs == [] {
      NoRuns();
    } else {
      var init, v := vs[..|vs| - 1], vs[|vs| - 1];
      RunsPartition(floor, init);
      AddValueKeeps(Runs(floor, init), floor(v.ts), v.value);
      AddValueShaped(Runs(floor, init), floor(v.ts), v.value);
      assert ValuesOf(vs) == ValuesOf(init) + [v.value];
      assert FloorsOf(floor, vs) == FloorsOf(floor, init) + [floor(v.ts)];
    }
  }

  lemma NoRuns()
    ensures PointsOf([]) == [] && StartsOf([]) == [] && CountIn([]) == 0 && Shaped([])
  {
  }

  lemma AddValueShaped(rs: seq<Run>, start: Timestamp, v: real)
    requires Shaped(rs)
    ensures Shaped(AddValue(rs, start, v))
  {
  }

  lemma AddValueKeeps(rs: seq<Run>, start: Timestamp, v: real)
    ensures var next := AddValue(rs, start, v);
            && PointsOf(next) == PointsOf(rs) + [v] && StartsOf(next) == StartsOf(rs) + [start]
            && CountIn(next) == CountIn(rs) + 1
  {
    var next := AddValue(rs, start, v);
    if rs != [] && rs[|rs| - 1].start == start {
      assert next[..|next| - 1] == rs[..|rs| - 1];
    } else {
      assert next[..|next| - 1] == rs;
    }
  }

  // ---------------------------------------------------------------- the query

  /** One emitted aggregate: which of the requested ones, over what part of the range, and its value. */
  datatype Bucket = Bucket(kind: nat, start: Timestamp, end: int, value: real)

  /** A query over samples already in [from, to]; the bucket function is a parameter. */
  datatype Query = Query(from: Timestamp, to: Timestamp, window: int, floor: Floor, kinds: seq<Kind>)

  predicate Streams(kinds: seq<Kind>) {
    forall i :: 0 <= i < |kinds| ==> !kinds[i].Other?
  }

  /** What a run answers for each kind; the bucket is clipped to the range. */
  function Answer(q: Query, r: Run): (bs: seq<Bucket>)
    requires r.points != []
    ensures |bs| == |q.kinds|
  {
    seq(|q.kinds|, i requires 0 <= i < |q.kinds| =>
      Bucket(i, Max(r.start, q.from), Min(r.start + q.window, q.to),
             if Streams(q.kinds) then Streamed(q.kinds[i], r.points) else Compute(q.kinds[i], r.points)))
  }

  function Answers(q: Query, rs: seq<Run>): (bs: seq<Bucket>)
    requires NonEmpty(rs)
  {
    if rs == [] then [] else Answers(q, rs[..|rs| - 1]) + Answer(q, rs[|rs| - 1])
  }

  /** The value of one kind. */
  method ValueFor(q: Query, start: Timestamp, streaming: bool, accs: seq<Accumulator>, i: nat, points: seq<real>, ghost all: seq<real>)
    returns (value: real)
    requires all != [] && streaming == Streams(q.kinds) && |accs| == |q.kinds| && i < |accs|
    requires streaming ==> accs[i].Holds(all)
    requires !streaming ==> points == all
    ensures Answer(q, Run(start, all))[i] == Bucket(i, Max(start, q.from), Min(start + q.window, q.to), value)
  {
    if streaming {
      var v := accs[i].ValueOf(q.kinds[i]);
      value := v.value;
    } else {
      var v := BatchCompute(q.kinds[i], points);
      value := v.value;
    }
  }

  /** Flushing the run that is being gathered: one call a kind, up to the first that fails. */
  method FlushBucket(q: Query, start: Timestamp, streaming: bool, accs: seq<Accumulator>, points: seq<real>,
                     fails: seq<Bucket> -> bool, before: seq<Bucket>, ghost all: seq<real>)
    returns (given: seq<Bucket>, failed: bool)
    requires all != [] && streaming == Streams(q.kinds) && |accs| == |q.kinds|
    requires streaming ==> forall i :: 0 <= i < |accs| ==> accs[i].Holds(all)
    requires !streaming ==> points == all
    ensures CallsFrom(fails, before, Answer(q, Run(start, all))) == Calls(given, failed)
  {
    hide Answer, Accumulator.Holds, Streams;
    given := before;
    ghost var bs := Answer(q, Run(start, all));
    assert bs[..0] == [];
    for i := 0 to |q.kinds|
      invariant CallsFrom(fails, before, bs[..i]) == Calls(given, false)
    {
      var value := ValueFor(q, start, streaming, accs, i, points, all);
      given := given + [Bucket(i, Max(start, q.from), Min(start + q.window, q.to), value)];
      assert bs[..i + 1] == bs[..i] + [bs[i]];
      CallsSnoc(fails, before, bs[..i], bs[i]);
      if fails(given) {
        CallsStop(fails, before, bs[..i + 1], bs);
        return given, true;
      }
    }
    assert bs[..|bs|] == bs;
    return given, false;
  }

  method AddSample(accs: seq<Accumulator>, value: real, ghost all: seq<real>)
    requires forall i :: 0 <= i < |accs| ==> accs[i].Holds(all)
    requires forall i, j :: 0 <= i < j < |accs| ==> accs[i] != accs[j]
    modifies accs
    ensures forall i :: 0 <= i < |accs| ==> accs[i].Holds(all + [value])
  {
    for i := 0 to |accs|
      invariant forall k :: 0 <= k < i ==> accs[k].Holds(all + [value])
      invariant forall k :: i <= k < |accs| ==> accs[k].Holds(all)
    {
      accs[i].Add(value, all);
    }
  }

  method ResetAll(accs: seq<Accumulator>)
    requires forall i, j :: 0 <= i < j < |accs| ==> accs[i] != accs[j]
    modifies accs
    ensures forall i :: 0 <= i < |accs| ==> accs[i].Holds([])
  {
    for i := 0 to |accs|
      invariant forall k :: 0 <= k < i ==> accs[k].Holds([])
    {
      accs[i].Reset();
    }
  }

  method NewAccumulators(n: nat) returns (accs: seq<Accumulator>)
    ensures |accs| == n && (forall i :: 0 <= i < n ==> fresh(accs[i]) && accs[i].Holds([]))
    ensures forall i, j :: 0 <= i < j < n ==> accs[i] != accs[j]
  {
    accs := [];
    for k := 0 to n
      invariant |accs| == k && (forall i :: 0 <= i < k ==> fresh(accs[i]) && accs[i].Holds([]))
      invariant forall i, j :: 0 <= i < j < k ==> accs[i] != accs[j]
    {
      var acc := new Accumulator();
      accs := accs + [acc];
    }
  }

  /** How one more sample changes the runs, by what is being gathered. */
  lemma GatherStep(rs: seq<Run>, current: Timestamp, all: seq<real>, start: Timestamp, v: real)
    ensures AddValue([], start, v) == [Run(start, [v])]
    ensures AddValue(rs + [Run(current, all)], start, v)
            == if start == current then rs + [Run(current, all + [v])] else rs + [Run(current, all)] + [Run(start, [v])]
  {
    assert (rs + [Run(current, all)])[..|rs|] == rs;
  }

  lemma NoRunYet(floor: Floor, vs: seq<Value>)
    ensures Runs(floor, vs[..0]) == []
  {
    assert vs[..0] == [];
  }

  ghost predicate NonEmpty(rs: seq<Run>) {
    forall i :: 0 <= i < |rs| ==> rs[i].points != []
  }

  lemma AnswersSnoc(q: Query, rs: seq<Run>, r: Run)
    requires NonEmpty(rs) && r.points != []
    ensures NonEmpty(rs + [r]) && Answers(q, rs + [r]) == Answers(q, rs) + Answer(q, r)
  {
    assert (rs + [r])[..|rs|] == rs;
  }

  /** What the query's closures share: the run being gathered, and the buckets of the runs before it. */
  class Gathering {
    const q: Query
    const streaming: bool
    const accs: seq<Accumulator>
    const fails: seq<Bucket> -> bool
    var points: seq<real>
    var haveBucket: bool
    var current: Timestamp
    var out: seq<Bucket>
    ghost var flushed: seq<Run>
    ghost var all: seq<real>

    ghost predicate Valid()
      reads this, accs
    {
      && streaming == Streams(q.kinds) && |accs| == |q.kinds|
      && (forall i, j :: 0 <= i < j < |accs| ==> accs[i] != accs[j])
      && (if streaming then forall i :: 0 <= i < |accs| ==> accs[i].Holds(all) else points == all)
      && (haveBucket <==> all != []) && (!haveBucket ==> flushed == [])
      && NonEmpty(flushed) && CallsFrom(fails, [], Answers(q, flushed)) == Calls(out, false)
    }

    /** The runs seen so far. */
    ghost function Seen(): seq<Run>
      reads this
    {
      flushed + if haveBucket then [Run(current, all)] else []
    }

    constructor (query: Query, callback: seq<Bucket> -> bool)
      ensures Valid() && Seen() == [] && q == query && fails == callback && fresh(accs)
    {
      q, streaming, fails := query, Streams(query.kinds), callback;
      var made := NewAccumulators(|query.kinds|);
      accs := made;
      points, haveBucket, current, out := [], false, 0, [];
      flushed, all := [], [];
    }

    /** Emits the gathered run. */
    method Flush() returns (failed: bool)
      requires Valid() && haveBucket
      modifies this`out, this`flushed
      ensures NonEmpty(flushed) && flushed == old(flushed) + [Run(current, all)]
      ensures CallsFrom(fails, [], Answers(q, flushed)) == Calls(out, failed)
    {
      hide Answer, Answers, CallsFrom;
      ghost var run := Run(current, all);
      AnswersSnoc(q, flushed, run);
      CallsAppend(fails, [], Answers(q, flushed), Answer(q, run));
      out, failed := FlushBucket(q, current, streaming, accs, points, fails, out, all);
      flushed := flushed + [run];
    }

    method Clear()
      requires forall i, j :: 0 <= i < j < |accs| ==> accs[i] != accs[j]
      modifies this`points, this`all, accs
      ensures all == [] && if streaming then forall i :: 0 <= i < |accs| ==> accs[i].Holds([]) else points == []
    {
      all := [];
      if streaming {
        ResetAll(accs);
      } else {
        points := [];
      }
    }

    method Collect(value: real)
      requires forall i, j :: 0 <= i < j < |accs| ==> accs[i] != accs[j]
      requires if streaming then forall i :: 0 <= i < |accs| ==> accs[i].Holds(all) else points == all
      modifies this`points, this`all, accs
      ensures all == old(all) + [value]
      ensures if streaming then forall i :: 0 <= i < |accs| ==> accs[i].Holds(all) else points == all
    {
      if streaming {
        AddSample(accs, value, all);
      } else {
        points := points + [value];
      }
      all := all + [value];
    }

    /** One sample of the stream; it ends the stream when a call for the run before it fails. */
    method Sample(start: Timestamp, value: real) returns (failed: bool)
      requires Valid()
      modifies this`points, this`haveBucket, this`current, this`out, this`flushed, this`all, accs
      ensures !failed ==> Valid() && Seen() == AddValue(old(Seen()), start, value)
      ensures failed ==>
                && NonEmpty(flushed) && flushed == old(Seen()) && CallsFrom(fails, [], Answers(q, flushed)) == Calls(out, true)
                && AddValue(flushed, start, value) == flushed + [Run(start, [value])]
    {
      hide Answer, Answers, AddValue, Accumulator.Holds, Streams, CallsFrom;
      GatherStep(flushed, current, all, start, value);
      ghost var seen, none := Seen(), [];
      assert none + [value] == [value];
      if !haveBucket {
        assert seen == [];
        current := start;
        haveBucket := true;
      } else if start != current {
        failed := Flush();
        if failed { return; }
        Clear();
        current := start;
      }
      Collect(value);
      failed := false;
      assert Seen() == AddValue(seen, start, value);
    }
  }

  /** The runs that a next sample has closed. */
  function ClosedRuns(rs: seq<Run>): seq<Run> {
    if rs == [] then [] else rs[..|rs| - 1]
  }

  lemma ClosedNonEmpty(rs: seq<Run>)
    requires NonEmpty(rs)
    ensures NonEmpty(ClosedRuns(rs))
  {
  }

  lemma {:induction false} RunsNonEmpty(floor: Floor, vs: seq<Value>)
    ensures NonEmpty(Runs(floor, vs))
  {
    if vs != [] {
      RunsNonEmpty(floor, vs[..|vs| - 1]);
    }
  }

  /** A closed run stays as it is. */
  lemma {:induction false} ClosedRunsGrow(floor: Floor, vs: seq<Value>, k: nat)
    requires k <= |vs|
    ensures ClosedRuns(Runs(floor, vs[..k])) <= ClosedRuns(Runs(floor, vs))
    decreases |vs|
  {
    if k == |vs| {
      assert vs[..k] == vs;
    } else {
      assert vs[..|vs| - 1][..k] == vs[..k];
      ClosedRunsGrow(floor, vs[..|vs| - 1], k);
    }
  }

  lemma {:induction false} AnswersGrow(q: Query, rs: seq<Run>, all: seq<Run>)
    requires rs <= all && NonEmpty(rs) && NonEmpty(all)
    ensures Answers(q, rs) <= Answers(q, all)
    decreases |all|
  {
    hide Answer;
    if |rs| == |all| {
      assert rs == all;
    } else {
      AnswersGrow(q, rs, all[..|all| - 1]);
    }
  }

  /** The runs answered for: all of them, or, when the range query breaks off, those closed by then. */
  function Answered(floor: Floor, vs: seq<Value>, broken: bool): seq<Run> {
    if broken then ClosedRuns(Runs(floor, vs)) else Runs(floor, vs)
  }

  // ---------------------------------------------------------------- the aggregates asked for

  /** The aggregates a list asks for: trimmed, without blanks, each once, in order of first mention. */
  function Wanted(names: seq<Name>): (ns: seq<Name>) {
    if names == [] then []
    else
      var ns, n := Wanted(names[..|names| - 1]), Trim(names[|names| - 1]);
      if n == [] || n in ns then ns else ns + [n]
  }

  /** Wanted has each name once, and has exactly the names mentioned. */
  lemma {:induction false} WantedIsExact(names: seq<Name>)
    ensures forall i, j :: 0 <= i < j < |Wanted(names)| ==> Wanted(names)[i] != Wanted(names)[j]
    ensures forall n :: n in Wanted(names) <==> n != [] && exists i :: 0 <= i < |names| && Trim(names[i]) == n
  {
    hide Trim;
    if names != [] {
      var init := names[..|names| - 1];
      WantedIsExact(init);
      assert forall i :: 0 <= i < |init| ==> init[i] == names[i];
      forall n ensures n in Wanted(names) <==> n != [] && exists i :: 0 <= i < |names| && Trim(names[i]) == n {
        assert n in Wanted(names) <==> n in Wanted(init) || (n != [] && n == Trim(names[|names| - 1]));
        if exists i :: 0 <= i < |names| && Trim(names[i]) == n {
          var i :| 0 <= i < |names| && Trim(names[i]) == n;
          assert i < |init| ==> Trim(init[i]) == n;
        }
        if exists i :: 0 <= i < |init| && Trim(init[i]) == n {
          var i :| 0 <= i < |init| && Trim(init[i]) == n;
          assert Trim(names[i]) == n;
        }
      }
    }
  }

  predicate Supported(registry: map<Name, Kind>, ns: seq<Name>) {
    forall n :: n in ns ==> n in registry
  }

  function KindsOf(registry: map<Name, Kind>, ns: seq<Name>): (ks: seq<Kind>)
    requires Supported(registry, ns)
    ensures |ks| == |ns|
  {
    seq(|ns|, i requires 0 <= i < |ns| => registry[ns[i]])
  }

  /** resolveAggregators: one pass, with the names met so far in a set. */
  method ResolveAggregators(registry: map<Name, Kind>, names: seq<Name>) returns (r: Result<seq<Kind>, AggregateError>)
    ensures var ns := Wanted(names);
            r == if !Supported(registry, ns) then Err(UnsupportedAggregate)
                 else if ns == [] then Err(NoAggregate)
                 else Ok(KindsOf(registry, ns))
  {
    hide Trim;
    var kinds: seq<Kind>, seen: set<Name> := [], {};
    for i := 0 to |names|
      invariant Supported(registry, Wanted(names[..i])) && kinds == KindsOf(registry, Wanted(names[..i]))
      invariant forall n :: n in seen <==> n in Wanted(names[..i])
    {
      assert names[..i + 1][..i] == names[..i];
      var name := Trim(names[i]);
      if name == [] || name in seen { continue; }
      if name !in registry {
        WantedGrows(names, i + 1, name);
        return Err(UnsupportedAggregate);
      }
      seen := seen + {name};
      kinds := kinds + [registry[name]];
    }
    assert names[..|names|] == names;
    if |kinds| == 0 { return Err(NoAggregate); }
    return Ok(kinds);
  }

  lemma {:induction false} WantedGrows(names: seq<Name>, k: nat, n: Name)
    requires k <= |names| && n in Wanted(names[..k])
    ensures n in Wanted(names)
    decreases |names| - k
  {
    if k == |names| {
      assert names[..k] == names;
    } else {
      assert names[..k + 1][..k] == names[..k];
      WantedGrows(names, k + 1, n);
    }
  }

  /**
   QueryAggregateRange over the samples its range query delivers, before it ends or, when it is `broken`, fails; for the
   aggregates a list of names asks for.
   */
  method QueryAggregateRange(registry: map<Name, Kind>, names: seq<Name>, from: Timestamp, to: Timestamp, window: int,
                             floor: Floor, vs: seq<Value>, broken: bool, fails: seq<Bucket> -> bool)
    returns (given: seq<Bucket>, err: Option<AggregateError>)
    ensures to < from ==> given == [] && err == Some(InvalidRange)
    ensures from <= to && window <= 0 ==> given == [] && err == Some(InvalidWindow)
    ensures from <= to && window > 0 && !Supported(registry, Wanted(names)) ==> given == [] && err == Some(UnsupportedAggregate)
    ensures from <= to && window > 0 && Wanted(names) == [] ==> given == [] && err == Some(NoAggregate)
    ensures from <= to && window > 0 && Supported(registry, Wanted(names)) && Wanted(names) != [] ==>
              var q := Query(from, to, window, floor, KindsOf(registry, Wanted(names)));
              NonEmpty(Answered(floor, vs, broken))
              && var calls := CallsFrom(fails, [], Answers(q, Answered(floor, vs, broken)));
                 given == calls.given
                 && err == if calls.failed then Some(CallbackFailed) else if broken then Some(RangeFailed) else None
  {
    hide Answer, Answers, AddValue, Wanted, CallsFrom;
    if to < from { return [], Some(InvalidRange); }
    if window <= 0 { return [], Some(InvalidWindow); }
    var kinds := ResolveAggregators(registry, names);
    if kinds.Err? { return [], Some(kinds.error); }
    var q := Query(from, to, window, floor, kinds.value);
    given, err := Gather(q, vs, broken, fails);
  }

  lemma AnsweredNonEmpty(floor: Floor, vs: seq<Value>, broken: bool)
    ensures NonEmpty(Answered(floor, vs, broken))
  {
    RunsNonEmpty(floor, vs);
    ClosedNonEmpty(Runs(floor, vs));
  }

  /** A call that fails on the runs closed by the next sample is the last. */
  lemma StopsEarly(q: Query, vs: seq<Value>, k: nat, broken: bool, fails: seq<Bucket> -> bool)
    requires k < |vs| && NonEmpty(Runs(q.floor, vs[..k])) && NonEmpty(Answered(q.floor, vs, broken))
    requires CallsFrom(fails, [], Answers(q, Runs(q.floor, vs[..k]))).failed
    requires var rs := Runs(q.floor, vs[..k]);
             Runs(q.floor, vs[..k + 1]) == rs + [Run(q.floor(vs[k].ts), [vs[k].value])]
    ensures CallsFrom(fails, [], Answers(q, Answered(q.floor, vs, broken))) == CallsFrom(fails, [], Answers(q, Runs(q.floor, vs[..k])))
  {
    hide Answers, Runs, CallsFrom;
    var rs := Runs(q.floor, vs[..k]);
    ClosedRunsGrow(q.floor, vs, k + 1);
    assert ClosedRuns(Runs(q.floor, vs[..k + 1])) == rs;
    assert rs <= Answered(q.floor, vs, broken);
    AnswersGrow(q, rs, Answered(q.floor, vs, broken));
    CallsStop(fails, [], Answers(q, rs), Answers(q, Answered(q.floor, vs, broken)));
  }

  lemma RunsSnoc(floor: Floor, vs: seq<Value>, k: nat)
    requires k < |vs|
    ensures Runs(floor, vs[..k + 1]) == AddValue(Runs(floor, vs[..k]), floor(vs[k].ts), vs[k].value)
  {
    assert vs[..k + 1][..k] == vs[..k];
  }

  /** The pass over the samples. */
  method Gather(q: Query, vs: seq<Value>, broken: bool, fails: seq<Bucket> -> bool)
    returns (given: seq<Bucket>, err: Option<AggregateError>)
    ensures NonEmpty(Answered(q.floor, vs, broken))
    ensures var calls := CallsFrom(fails, [], Answers(q, Answered(q.floor, vs, broken)));
            given == calls.given
            && err == if calls.failed then Some(CallbackFailed) else if broken then Some(RangeFailed) else None
  {
    hide Answer, Answers, AddValue, CallsFrom, Runs;
    AnsweredNonEmpty(q.floor, vs, broken);
    var g := new Gathering(q, fails);
    NoRunYet(q.floor, vs);
    for i := 0 to |vs|
      invariant g.Valid() && g.q == q && g.fails == fails && fresh(g) && fresh(g.accs)
      invariant g.Seen() == Runs(q.floor, vs[..i])
    {
      RunsSnoc(q.floor, vs, i);
      var failed := g.Sample(q.floor(vs[i].ts), vs[i].value);
      if failed {
        StopsEarly(q, vs, i, broken, fails);
        return g.out, Some(CallbackFailed);
      }
    }
    assert vs[..|vs|] == vs;
    if broken {
      return g.out, Some(RangeFailed);
    }
    if g.haveBucket {
      var failed := g.Flush();
      if failed { return g.out, Some(CallbackFailed); }
    }
    return g.out, None;
  }
}
