/**
 Planning a V2 metric file: which timestamp vectors become time frames, and which slice of which time frame
 each metric uses.
 */
module MetricPlan {
  import opened Prelude
  import opened Bytes
  import opened StableSort

  type Vector = seq<Timestamp>

  const INT32_SAMPLE: byte := 1
  const FLOAT32_SAMPLE: byte := 2

  /** MetricFilePageInput: one metric's times and raw values, in the slice that its type names. */
  datatype Input = Input(id: nat, valueType: byte, times: Vector, ints: seq<nat>, floats: seq<nat>)

  datatype Place = Place(frame: nat, offset: nat)

  datatype PlanError = NoTimestamps | UnsupportedType | BadPayload

  /** A metric frame's plan; `frame` is the id of its time frame. */
  datatype MetricFrame = MetricFrame(input: Input, frame: nat, offset: nat)

  // ---------------------------------------------------------------- slices

  predicate SliceAt(hay: Vector, needle: Vector, off: nat) {
    off + |needle| <= |hay| && hay[off..off + |needle|] == needle
  }

  ghost predicate IsSlice(hay: Vector, needle: Vector) {
    exists off: nat :: SliceAt(hay, needle, off)
  }

  lemma SliceWithin(a: Vector, b: Vector, c: Vector)
    requires IsSlice(a, b) && IsSlice(b, c)
    ensures IsSlice(a, c)
  {
    var i: nat :| SliceAt(a, b, i);
    var j: nat :| SliceAt(b, c, j);
    forall k | 0 <= k < |c| ensures a[i + j + k] == c[k] {
      assert a[i..i + |b|][j + k] == b[j + k];
      assert b[j..j + |c|][k] == c[k];
    }
    assert SliceAt(a, c, i + j);
  }

  lemma SliceSame(a: Vector, b: Vector)
    requires IsSlice(a, b)
    ensures |b| <= |a| && (|a| == |b| ==> a == b)
  {
    var i: nat :| SliceAt(a, b, i);
    if |a| == |b| {
      assert i == 0;
    }
  }

  lemma SliceOfSelf(a: Vector)
    ensures IsSlice(a, a)
  {
    assert SliceAt(a, a, 0);
  }

  /** The first offset at which needle occurs in hay. */
  ghost predicate FirstSlice(hay: Vector, needle: Vector, off: nat) {
    SliceAt(hay, needle, off) && forall k :: 0 <= k < off ==> !SliceAt(hay, needle, k)
  }

  lemma NoSliceThere(hay: Vector, needle: Vector, start: nat, i: nat)
    requires start + |needle| <= |hay| && i < |needle| && hay[start + i] != needle[i]
    ensures !SliceAt(hay, needle, start)
  {
    assert hay[start..start + |needle|][i] == hay[start + i];
  }

  method FindTimeSliceOffset(hay: Vector, needle: Vector) returns (r: Option<nat>)
    ensures r.Some? ==> needle != [] && FirstSlice(hay, needle, r.value)
    ensures r.None? ==> needle == [] || !IsSlice(hay, needle)
  {
    if |needle| == 0 || |needle| > |hay| { return None; }
    var last := |hay| - |needle|;
    for start := 0 to last + 1
      invariant forall k :: 0 <= k < start ==> !SliceAt(hay, needle, k)
    {
      var matched := true;
      var i := 0;
      while i < |needle|
        invariant 0 <= i <= |needle| && matched
        invariant forall k :: 0 <= k < i ==> needle[k] == hay[start + k]
      {
        if hay[start + i] != needle[i] {
          matched := false;
          break;
        }
        i := i + 1;
      }
      if matched {
        assert hay[start..start + |needle|] == needle;
        return Some(start);
      }
      NoSliceThere(hay, needle, start, i);
    }
    return None;
  }

  // ---------------------------------------------------------------- time frames

  ghost predicate Shared(frames: seq<Vector>, v: Vector) {
    exists i :: 0 <= i < |frames| && IsSlice(frames[i], v)
  }

  /** The frames after the vectors vs, each sharing an earlier frame that contains it. */
  ghost function Frames(vs: seq<Vector>): (frames: seq<Vector>) {
    if vs == [] then []
    else
      var before := Frames(vs[..|vs| - 1]);
      if Shared(before, vs[|vs| - 1]) then before else before + [vs[|vs| - 1]]
  }

  lemma FramesSnoc(vs: seq<Vector>, v: Vector)
    ensures Frames(vs + [v]) == if Shared(Frames(vs), v) then Frames(vs) else Frames(vs) + [v]
  {
    assert (vs + [v])[..|vs|] == vs;
  }

  /** The place a vector gets: the first frame that contains it, at the first offset. */
  ghost predicate PlacedIn(frames: seq<Vector>, v: Vector, at: Place) {
    && at.frame < |frames| && FirstSlice(frames[at.frame], v, at.offset)
    && forall i :: 0 <= i < at.frame ==> !IsSlice(frames[i], v)
  }

  lemma PlacedStays(frames: seq<Vector>, more: seq<Vector>, v: Vector, at: Place)
    requires PlacedIn(frames, v, at)
    ensures PlacedIn(frames + more, v, at)
  {
    assert (frames + more)[at.frame] == frames[at.frame];
    forall i | 0 <= i < at.frame ensures !IsSlice((frames + more)[i], v) {
      assert (frames + more)[i] == frames[i];
    }
  }

  lemma NewFrame(frames: seq<Vector>, v: Vector)
    requires !Shared(frames, v)
    ensures PlacedIn(frames + [v], v, Place(|frames|, 0))
  {
    var all := frames + [v];
    assert SliceAt(v, v, 0);
    forall i | 0 <= i < |frames| ensures !IsSlice(all[i], v) {
      assert all[i] == frames[i];
    }
  }

  lemma {:induction false} FramesAreVectors(vs: seq<Vector>)
    ensures forall f :: f in Frames(vs) ==> f in vs
    ensures forall v :: v in vs ==> Shared(Frames(vs), v)
  {
    if vs != [] {
      var init, v := vs[..|vs| - 1], vs[|vs| - 1];
      assert vs == init + [v];
      FramesAreVectors(init);
      forall u | u in vs ensures Shared(Frames(vs), u) {
        if u in init {
          var i :| 0 <= i < |Frames(init)| && IsSlice(Frames(init)[i], u);
          assert IsSlice(Frames(vs)[i], u);
        } else if !Shared(Frames(init), v) {
          SliceOfSelf(v);
          assert IsSlice(Frames(vs)[|Frames(init)|], v);
        }
      }
    }
  }

  ghost predicate LongestFirst(vs: seq<Vector>) {
    forall i, j :: 0 <= i < j < |vs| ==> |vs[i]| >= |vs[j]|
  }

  /** v is a contiguous slice of a longer vector of vs. */
  ghost predicate Redundant(vs: seq<Vector>, v: Vector) {
    exists i :: 0 <= i < |vs| && |vs[i]| > |v| && IsSlice(vs[i], v)
  }

  lemma {:induction false} FramesNotRedundant(vs: seq<Vector>, i: nat)
    requires LongestFirst(vs) && i < |Frames(vs)|
    ensures !Redundant(vs, Frames(vs)[i])
    ensures forall j :: 0 <= j < i ==> Frames(vs)[j] != Frames(vs)[i]
  {
    var init, v := vs[..|vs| - 1], vs[|vs| - 1];
    assert vs == init + [v];
    var before := Frames(init);
    if i < |before| {
      FramesNotRedundant(init, i);
      var f := before[i];
      FramesAreVectors(init);
      assert f in init;
      NotLonger(vs, f);
      StaysNeeded(init, v, f);
    } else {
      FramesAreVectors(init);
      NewIsNotRedundant(init, v, vs);
      forall j | 0 <= j < i ensures Frames(vs)[j] != v {
        SliceOfSelf(v);
        assert Frames(vs)[j] == before[j];
      }
    }
  }

  lemma StaysNeeded(init: seq<Vector>, v: Vector, f: Vector)
    requires !Redundant(init, f) && |v| <= |f|
    ensures !Redundant(init + [v], f)
  {
    var vs := init + [v];
    forall k | 0 <= k < |vs| && |vs[k]| > |f| ensures !IsSlice(vs[k], f) {
      assert vs[k] == init[k];
    }
  }

  /** The last vector is not longer than any other. */
  lemma NotLonger(vs: seq<Vector>, f: Vector)
    requires LongestFirst(vs) && vs != [] && f in vs[..|vs| - 1]
    ensures |vs[|vs| - 1]| <= |f|
  {
  }

  lemma NewIsNotRedundant(init: seq<Vector>, v: Vector, vs: seq<Vector>)
    requires vs == init + [v] && !Shared(Frames(init), v)
    requires forall u :: u in init ==> Shared(Frames(init), u)
    ensures !Redundant(vs, v)
  {
    if Redundant(vs, v) {
      var k :| 0 <= k < |vs| && |vs[k]| > |v| && IsSlice(vs[k], v);
      assert k < |init| && vs[k] == init[k] && init[k] in init;
      var i :| 0 <= i < |Frames(init)| && IsSlice(Frames(init)[i], init[k]);
      SliceWithin(Frames(init)[i], init[k], v);
      assert false;
    }
  }

  /**
   The time frames are exactly the distinct vectors that are not contiguous slices of a longer vector, and every
   vector is a slice of one of them: planning loses nothing and shares as much as slices allow.
   */
  lemma FramesAreMaximal(vs: seq<Vector>)
    requires LongestFirst(vs)
    ensures forall v :: v in Frames(vs) <==> v in vs && !Redundant(vs, v)
    ensures forall i, j :: 0 <= i < j < |Frames(vs)| ==> Frames(vs)[i] != Frames(vs)[j]
    ensures forall v :: v in vs ==> Shared(Frames(vs), v)
  {
    FramesAreVectors(vs);
    forall i, j | 0 <= i < j < |Frames(vs)| ensures Frames(vs)[i] != Frames(vs)[j] {
      FramesNotRedundant(vs, j);
    }
    forall v ensures v in Frames(vs) <==> v in vs && !Redundant(vs, v) {
      if v in Frames(vs) {
        var i :| 0 <= i < |Frames(vs)| && Frames(vs)[i] == v;
        FramesNotRedundant(vs, i);
      } else if v in vs && !Redundant(vs, v) {
        MustBeFrame(vs, v);
        assert false;
      }
    }
  }

  lemma MustBeFrame(vs: seq<Vector>, v: Vector)
    requires v in vs && !Redundant(vs, v)
    ensures v in Frames(vs)
  {
    FramesAreVectors(vs);
    var i :| 0 <= i < |Frames(vs)| && IsSlice(Frames(vs)[i], v);
    var f := Frames(vs)[i];
    SliceSame(f, v);
    assert f in vs;
    var k :| 0 <= k < |vs| && vs[k] == f;
    assert |vs[k]| <= |v|;
  }

  // ---------------------------------------------------------------- the plan

  function IdOf(p: Input): int { p.id }

  /** The inputs by metric id, inputs of one id in their given order. */
  function ById(pages: seq<Input>): (r: seq<Input>)
    ensures |r| == |pages|
  {
    Sort(IdOf, pages)
  }

  function Indices(n: nat): (r: seq<nat>)
    ensures |r| == n
  {
    seq(n, i => i)
  }

  /** Longer vectors first, then smaller ids; ids are below 2^16, so the length decides. */
  function SizeKey(pages: seq<Input>): nat -> int {
    (i: nat) => if i < |pages| then pages[i].id - TWO_16 * |pages[i].times| else 0
  }

  function BySize(pages: seq<Input>): (r: seq<nat>)
    ensures |r| == |pages|
  {
    Sort(SizeKey(pages), Indices(|pages|))
  }

  /** order lists the indices 0..n-1, each once. */
  ghost predicate Permutes(order: seq<nat>, n: nat) {
    && |order| == n
    && (forall m :: 0 <= m < n ==> order[m] < n)
    && (forall m, k :: 0 <= m < k < n ==> order[m] != order[k])
    && (forall i :: 0 <= i < n ==> i in order)
  }

  lemma BySizePermutes(pages: seq<Input>)
    ensures Permutes(BySize(pages), |pages|)
  {
    var idx, order := Indices(|pages|), BySize(pages);
    SortIsStable(SizeKey(pages), idx);
    assert multiset(order) == multiset(idx);
    forall m | 0 <= m < |order| ensures order[m] < |pages| {
      assert order[m] in multiset(order);
    }
    forall i | 0 <= i < |pages| ensures i in order {
      assert idx[i] in multiset(idx);
      assert i in multiset(order);
    }
    forall m, k | 0 <= m < k < |order| ensures order[m] != order[k] {
      if order[m] == order[k] {
        OccursTwice(order, m, k);
        OccursOnce(|pages|, order[m]);
        assert false;
      }
    }
  }

  lemma OccursTwice(s: seq<nat>, m: nat, k: nat)
    requires m < k < |s| && s[m] == s[k]
    ensures multiset(s)[s[m]] >= 2
  {
    assert s == s[..m] + [s[m]] + s[m + 1..k] + [s[k]] + s[k + 1..];
  }

  lemma {:induction false} OccursOnce(n: nat, i: nat)
    ensures multiset(Indices(n))[i] <= 1 && (i >= n ==> multiset(Indices(n))[i] == 0)
  {
    if n > 0 {
      assert Indices(n) == Indices(n - 1) + [n - 1];
      OccursOnce(n - 1, i);
    }
  }

  ghost predicate IdsFit(pages: seq<Input>) {
    forall i :: 0 <= i < |pages| ==> pages[i].id < TWO_16
  }

  /** The vectors of the inputs in the order the planner takes them. */
  function VectorsIn(pages: seq<Input>, order: seq<nat>): (vs: seq<Vector>)
    requires forall m :: 0 <= m < |order| ==> order[m] < |pages|
    ensures |vs| == |order|
  {
    seq(|order|, m requires 0 <= m < |order| => pages[order[m]].times)
  }

  lemma LongestComeFirst(pages: seq<Input>)
    requires IdsFit(pages)
    ensures Permutes(BySize(pages), |pages|)
    ensures LongestFirst(VectorsIn(pages, BySize(pages)))
  {
    BySizePermutes(pages);
    SortIsStable(SizeKey(pages), Indices(|pages|));
    var order := BySize(pages);
    var vs := VectorsIn(pages, order);
    forall i, j | 0 <= i < j < |vs| ensures |vs[i]| >= |vs[j]| {
      assert SizeKey(pages)(order[i]) <= SizeKey(pages)(order[j]);
    }
  }

  /** The time frames planned for the inputs. */
  ghost function PlannedFrames(pages: seq<Input>): (frames: seq<Vector>) {
    var sorted := ById(pages);
    BySizePermutes(sorted);
    Frames(VectorsIn(sorted, BySize(sorted)))
  }

  /** A longer vector of another input contains v. */
  ghost predicate Contained(pages: seq<Input>, v: Vector) {
    exists p :: p in pages && |p.times| > |v| && IsSlice(p.times, v)
  }

  lemma VectorsOfPages(pages: seq<Input>, order: seq<nat>, v: Vector)
    requires Permutes(order, |pages|)
    ensures v in VectorsIn(pages, order) <==> exists p :: p in pages && p.times == v
    ensures Redundant(VectorsIn(pages, order), v) <==> Contained(pages, v)
  {
    var vs := VectorsIn(pages, order);
    if v in vs {
      var m :| 0 <= m < |vs| && vs[m] == v;
      assert pages[order[m]] in pages && pages[order[m]].times == v;
    }
    forall p | p in pages ensures exists m :: 0 <= m < |vs| && vs[m] == p.times {
      var i :| 0 <= i < |pages| && pages[i] == p;
      assert i in order;
      var m :| 0 <= m < |order| && order[m] == i;
      assert vs[m] == p.times;
    }
    if Redundant(vs, v) {
      var m :| 0 <= m < |vs| && |vs[m]| > |v| && IsSlice(vs[m], v);
      assert pages[order[m]] in pages;
    }
  }

  lemma SortedMembers(pages: seq<Input>, p: Input)
    ensures p in ById(pages) <==> p in pages
  {
    SortIsStable(IdOf, pages);
    assert p in multiset(ById(pages)) <==> p in multiset(pages);
  }

  /**
   Whatever the order of the inputs, the planned time frames are exactly the distinct timestamp vectors that are
   not contiguous slices of a longer input vector, and every input's vector is a slice of one of them.
   */
  lemma PlanSharesMaximally(pages: seq<Input>, v: Vector)
    requires IdsFit(pages)
    ensures v in PlannedFrames(pages) <==> (exists p :: p in pages && p.times == v) && !Contained(pages, v)
    ensures forall i, j :: 0 <= i < j < |PlannedFrames(pages)| ==> PlannedFrames(pages)[i] != PlannedFrames(pages)[j]
    ensures (exists p :: p in pages && p.times == v) ==> Shared(PlannedFrames(pages), v)
  {
    hide Frames, Shared, IsSlice;
    var sorted := ById(pages);
    forall i | 0 <= i < |sorted| ensures sorted[i].id < TWO_16 {
      SortedMembers(pages, sorted[i]);
    }
    forall p ensures p in sorted <==> p in pages {
      SortedMembers(pages, p);
    }
    LongestComeFirst(sorted);
    VectorsOfPages(sorted, BySize(sorted), v);
    FramesAreMaximal(VectorsIn(sorted, BySize(sorted)));
  }

  /** What metricDecodedValueLen refuses. */
  function CheckInput(p: Input): Option<PlanError> {
    if p.valueType != INT32_SAMPLE && p.valueType != FLOAT32_SAMPLE then Some(UnsupportedType)
    else if p.valueType == INT32_SAMPLE && (|p.ints| != |p.times| || |p.floats| != 0) then Some(BadPayload)
    else if p.valueType == FLOAT32_SAMPLE && (|p.floats| != |p.times| || |p.ints| != 0) then Some(BadPayload)
    else None
  }

  /** Time frame ids count from one, in a 16-bit field. */
  function FrameId(i: nat): nat { (i + 1) % TWO_16 }

  /** Up to 65535 inputs, a frame's id is its position plus one. */
  lemma IdsAreDistinct(pages: seq<Input>, i: nat)
    requires |pages| < TWO_16 && i < |PlannedFrames(pages)|
    ensures FrameId(i) == i + 1 != 0
  {
    BySizePermutes(ById(pages));
    FewFrames(VectorsIn(ById(pages), BySize(ById(pages))));
  }

  lemma {:induction false} FewFrames(vs: seq<Vector>)
    ensures |Frames(vs)| <= |vs|
  {
    if vs != [] {
      FewFrames(vs[..|vs| - 1]);
    }
  }

  /** The first frame that contains the vector, at its first offset; the frame's position when none does. */
  method FindFrame(frames: seq<Vector>, v: Vector) returns (r: Option<Place>)
    requires v != []
    ensures r.Some? ==> PlacedIn(frames, v, r.value)
    ensures r.None? ==> !Shared(frames, v)
  {
    for i := 0 to |frames|
      invariant forall k :: 0 <= k < i ==> !IsSlice(frames[k], v)
    {
      var off := FindTimeSliceOffset(frames[i], v);
      if off.Some? { return Some(Place(i, off.value)); }
    }
    return None;
  }

  /** After the first k vectors: the frames so far, and the place of each. */
  ghost predicate Planned(vs: seq<Vector>, order: seq<nat>, k: nat, frames: seq<Vector>, places: seq<Place>)
    requires Permutes(order, |places|) && |vs| == |order| && k <= |vs|
  {
    && frames == Frames(vs[..k])
    && forall m :: 0 <= m < k ==> PlacedIn(frames, vs[m], places[order[m]])
  }

  lemma PlannedNext(vs: seq<Vector>, order: seq<nat>, k: nat, frames: seq<Vector>, places: seq<Place>, at: Option<Place>)
    requires Permutes(order, |places|) && |vs| == |order| && k < |vs| && Planned(vs, order, k, frames, places)
    requires if at.Some? then PlacedIn(frames, vs[k], at.value) else !Shared(frames, vs[k])
    ensures var place := if at.Some? then at.value else Place(|frames|, 0);
            Planned(vs, order, k + 1, if at.Some? then frames else frames + [vs[k]], places[order[k] := place])
  {
    hide PlacedIn, Frames;
    assert vs[..k + 1] == vs[..k] + [vs[k]];
    FramesSnoc(vs[..k], vs[k]);
    var place := if at.Some? then at.value else Place(|frames|, 0);
    var next := if at.Some? then frames else frames + [vs[k]];
    var places' := places[order[k] := place];
    if at.Some? {
      PlacedIsShared(frames, vs[k], place);
    } else {
      NewFrame(frames, vs[k]);
    }
    forall m | 0 <= m < k + 1 ensures PlacedIn(next, vs[m], places'[order[m]]) {
      if m < k {
        assert places'[order[m]] == places[order[m]];
        if at.None? {
          PlacedStays(frames, [vs[k]], vs[m], places[order[m]]);
        }
      }
    }
  }

  lemma PlacedIsShared(frames: seq<Vector>, v: Vector, at: Place)
    requires PlacedIn(frames, v, at)
    ensures Shared(frames, v)
  {
    assert IsSlice(frames[at.frame], v);
  }

  lemma AllPlaced(sorted: seq<Input>, order: seq<nat>, frames: seq<Vector>, places: seq<Place>)
    requires |places| == |sorted| && Permutes(order, |sorted|)
    requires Planned(VectorsIn(sorted, order), order, |sorted|, frames, places)
    ensures forall i :: 0 <= i < |sorted| ==> PlacedIn(frames, sorted[i].times, places[i])
  {
    hide PlacedIn, Frames;
    forall i | 0 <= i < |sorted| ensures PlacedIn(frames, sorted[i].times, places[i]) {
      assert i in order;
      var m :| 0 <= m < |order| && order[m] == i;
      assert VectorsIn(sorted, order)[m] == sorted[i].times;
    }
  }

  /** The assignment loop: time frames and the place of every input. */
  method AssignFrames(sorted: seq<Input>) returns (r: Option<(seq<Vector>, seq<Place>)>)
    ensures r.None? <==> exists p :: p in sorted && p.times == []
    ensures r.Some? ==>
              && Permutes(BySize(sorted), |sorted|)
              && r.value.0 == Frames(VectorsIn(sorted, BySize(sorted))) && |r.value.1| == |sorted|
              && forall i :: 0 <= i < |sorted| ==> PlacedIn(r.value.0, sorted[i].times, r.value.1[i])
  {
    hide PlacedIn, Frames, BySize, Shared;
    var bySize := BySize(sorted);
    BySizePermutes(sorted);
    var timeFrames: seq<Vector> := [];
    var assignments := seq(|sorted|, _ => Place(0, 0));
    ghost var vs := VectorsIn(sorted, bySize);
    NoFramesYet(vs);
    for k := 0 to |bySize|
      invariant |assignments| == |sorted|
      invariant Planned(vs, bySize, k, timeFrames, assignments)
      invariant forall m :: 0 <= m < k ==> sorted[bySize[m]].times != []
    {
      var orderIdx := bySize[k];
      var times := sorted[orderIdx].times;
      if |times| == 0 {
        assert sorted[orderIdx] in sorted;
        return None;
      }
      var place := FindFrame(timeFrames, times);
      PlannedNext(vs, bySize, k, timeFrames, assignments, place);
      if place.Some? {
        assignments := assignments[orderIdx := place.value];
      } else {
        assignments := assignments[orderIdx := Place(|timeFrames|, 0)];
        timeFrames := timeFrames + [times];
      }
    }
    assert vs[..|vs|] == vs;
    AllPlaced(sorted, bySize, timeFrames, assignments);
    forall p | p in sorted ensures p.times != [] {
      var i :| 0 <= i < |sorted| && sorted[i] == p;
      assert i in bySize;
    }
    return Some((timeFrames, assignments));
  }

  lemma NoFramesYet(vs: seq<Vector>)
    ensures Frames(vs[..0]) == []
  {
    assert vs[..0] == [];
  }

  /** planMetricFramesV2: the time frames, and a metric frame for every input in id order. */
  method PlanMetricFrames(pages: seq<Input>) returns (r: Result<(seq<Vector>, seq<MetricFrame>), PlanError>)
    ensures r == Err(NoTimestamps) <==> exists p :: p in pages && p.times == []
    ensures r.Err? && r.error != NoTimestamps ==>
              exists k :: 0 <= k < |pages| && CheckInput(ById(pages)[k]) == Some(r.error)
                          && forall i :: 0 <= i < k ==> CheckInput(ById(pages)[i]).None?
    ensures r.Ok? ==>
              var (frames, planned) := r.value;
              && frames == PlannedFrames(pages) && |planned| == |pages|
              && forall i :: 0 <= i < |pages| ==>
                   && CheckInput(ById(pages)[i]).None?
                   && planned[i].input == ById(pages)[i]
                   && (exists f: nat :: planned[i].frame == FrameId(f)
                                        && PlacedIn(frames, planned[i].input.times, Place(f, planned[i].offset)))
  {
    hide PlacedIn, Frames, BySize, ById;
    var indexed := ById(pages);
    forall p ensures p in indexed <==> p in pages {
      SortedMembers(pages, p);
    }
    var framed := AssignFrames(indexed);
    if framed.None? { return Err(NoTimestamps); }
    var (timeFrames, assignments) := framed.value;
    var metricFrames: seq<MetricFrame> := [];
    for i := 0 to |indexed|
      invariant |metricFrames| == i
      invariant forall k :: 0 <= k < i ==>
                  && CheckInput(indexed[k]).None? && metricFrames[k].input == indexed[k]
                  && metricFrames[k].frame == FrameId(assignments[k].frame) && metricFrames[k].offset == assignments[k].offset
    {
      var bad := CheckInput(indexed[i]);
      if bad.Some? { return Err(bad.value); }
      metricFrames := metricFrames + [MetricFrame(indexed[i], FrameId(assignments[i].frame), assignments[i].offset)];
    }
    forall i | 0 <= i < |pages|
      ensures exists f: nat :: metricFrames[i].frame == FrameId(f)
                               && PlacedIn(timeFrames, metricFrames[i].input.times, Place(f, metricFrames[i].offset))
    {
      var f := assignments[i].frame;
      assert PlacedIn(timeFrames, metricFrames[i].input.times, Place(f, metricFrames[i].offset));
    }
    return Ok((timeFrames, metricFrames));
  }
}
