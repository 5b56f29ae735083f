/**
 From a partition's pages to its V2 metric file and back to the pages: building the file, and comparing it with the
 data it was built from.
 */
module MetricFileBuild {
  import opened Prelude
  import opened Bytes
  import opened Samples
  import StableSort
  import opened MetricPlan
  import opened MetricBuild
  import opened MetricRecords
  import opened MetricFileV2
  import opened MetricFileProofs
  import opened MetricFileWriter
  import opened MetricQuery
  import opened MetricCompare

  datatype BuildFileError = Unbuildable(cause: BuildError) | NoPersistedPages | Unwritten(why: WriteError)

  /** The sizes the fields and caps of the format ask for. */
  ghost predicate FormatFits(env: Env, w: Writer, inputs: seq<Input>, frames: seq<Vector>, f: bytes) {
    EnvOk(env, w) && InputsFit(w, inputs, frames) && |f| < TWO_64
  }

  /**
   buildMetricFileForPartitionV2. It succeeds on every partition that holds samples, all of known 32-bit types; what
   it writes within the format's limits is a file for which queries and the comparison are proved exact.
   */
  method BuildMetricFile(env: Env, w: Writer, types: Types, pages: seq<Page>)
    returns (r: Result<bytes, BuildFileError>, ghost b: BuiltFile)
    ensures r.Ok? <==> Typed(types, Flatten(pages)) && Flatten(pages) != [] && MIN_KIND <= w.kind <= MAX_KIND
    ensures r == Err(NoPersistedPages) <==> Flatten(pages) == []
    ensures r.Ok? ==>
              && b.env == env && b.w == w && b.types == types && b.all == Flatten(pages) && r.value == b.Bytes()
              && (FormatFits(env, w, Built(types, b.all), b.frames, r.value) ==> b.Valid())
  {
    hide Flatten, Typed, Built, FileBytes, PlannedAs, InputsFit, EnvOk, Walk, AllPoints, CheckInput, ById;
    ghost var all := Flatten(pages);
    b := BuiltFile(env, w, types, all, [], []);
    TypedWhenEmpty(types, all);
    var inputs := BuildInputs(types, pages);
    if inputs.Err? { return Err(Unbuildable(inputs.error)), b; }
    BuiltEmptyIff(types, all);
    if |inputs.value| == 0 { return Err(NoPersistedPages), b; }
    BuiltInputsPass(types, all);
    var f, frames, ms := WriteMetricFile(env, w, inputs.value);
    b := BuiltFile(env, w, types, all, frames, ms);
    if f.Err? {
      assert f.error == BadPartitionKind;
      return Err(Unwritten(f.error)), b;
    }
    return Ok(f.value), b;
  }

  lemma TypedWhenEmpty(types: Types, ss: Page)
    ensures ss == [] ==> Typed(types, ss)
  {
  }

  lemma BuiltEmptyIff(types: Types, ss: Page)
    requires Typed(types, ss)
    ensures Built(types, ss) == [] <==> ss == []
  {
    if ss != [] {
      SeenIs(ss, ss[0]);
    }
  }

  /** No input of a build is empty or of the wrong shape. */
  lemma BuiltInputsPass(types: Types, ss: Page)
    requires Typed(types, ss)
    ensures forall p :: p in Built(types, ss) ==> p.times != [] && CheckInput(p).None?
    ensures forall k :: 0 <= k < |Built(types, ss)| ==> CheckInput(ById(Built(types, ss))[k]).None?
  {
    hide OfMetric, FirstSeen, StableSort.Sort, ById, Ordered;
    var built := Built(types, ss);
    SeenTyped(types, ss);
    SeenOnce(ss);
    forall p | p in built ensures p.times != [] && CheckInput(p).None? {
      var i :| 0 <= i < |built| && built[i] == p;
      OrderedFacts(ss, FirstSeen(ss)[i]);
    }
    forall k | 0 <= k < |built| ensures CheckInput(ById(built)[k]).None? {
      assert ById(built)[k] in ById(built);
      SortedMembers(built, ById(built)[k]);
    }
  }

  lemma ExpectedIsKeyed(types: Types, ss: Page, expected: Expected)
    requires IsExpected(types, ss, expected)
    ensures Keyed(expected)
  {
    hide OfMetric, Ordered;
    forall id, i | id in expected && 0 <= i < |expected[id]| ensures expected[id][i].id == id {
      OrderedFacts(ss, id);
      OrderedKnown(types, ss, id);
      assert expected[id] == ExpectedOf(types, ss, id);
      assert Ordered(ss, id)[i] in Ordered(ss, id);
    }
  }

  /** The file holds the samples of ss, metric by metric in stable time order, and no other metric. */
  ghost predicate HoldsSame(env: Env, f: bytes, types: Types, ss: Page)
    requires AllKnown(types, ss)
  {
    && Walk(env, f).Ok?
    && (forall k :: 0 <= k < |ReadIndexes(env, f).value.metrics| ==> OfMetric(ss, ReadIndexes(env, f).value.metrics[k].id) != [])
    && forall id :: OfMetric(ss, id) != [] ==> OfId(Walk(env, f).value, id) == ExpectedOf(types, ss, id)
  }

  /**
   CompareDataAndMetricPartitionV2 on any file whatsoever: it reports success exactly when the file holds, metric by
   metric, the samples of the pages in stable time order, and no other metric.
   */
  method CompareDataAndMetricPartition(env: Env, f: bytes, types: Types, ss: Page) returns (ok: bool)
    ensures ok <==> AllKnown(types, ss) && HoldsSame(env, f, types, ss)
  {
    hide Walk, ReadIndexes, OfMetric, OfId, ExpectedOf, Compare, AllKnown, Keyed;
    var expected := CollectRawSamples(types, ss);
    if expected.None? { return false; }
    ExpectedIsKeyed(types, ss, expected.value);
    var err := ComparePartition(env, f, expected.value);
    AcceptsSame(env, f, types, ss, expected.value);
    return err.None?;
  }

  lemma AcceptsSame(env: Env, f: bytes, types: Types, ss: Page, expected: Expected)
    requires IsExpected(types, ss, expected)
    ensures Compare(env, f, expected) == None <==> HoldsSame(env, f, types, ss)
  {
    hide ReadIndexes, OfMetric, OfId, ExpectedOf, Compare, AllKnown, WalkEntries, ReadTables;
    CompareSucceedsIff(env, f, expected);
    if Walk(env, f).Ok? {
      var es, ps := ReadIndexes(env, f).value.metrics, Walk(env, f).value;
      assert Listed(expected, es) <==> forall k :: 0 <= k < |es| ==> OfMetric(ss, es[k].id) != [];
      assert (forall id :: id in expected ==> OfId(ps, id) == expected[id])
          <==> (forall id :: OfMetric(ss, id) != [] ==> OfId(ps, id) == ExpectedOf(types, ss, id));
    }
  }

  /** A file just built always passes the comparison with its own pages. */
  method BuildAndCompare(env: Env, w: Writer, types: Types, pages: seq<Page>)
    returns (r: Result<bytes, BuildFileError>, same: bool, ghost frames: seq<Vector>)
    ensures r.Ok? <==> Typed(types, Flatten(pages)) && Flatten(pages) != [] && MIN_KIND <= w.kind <= MAX_KIND
    ensures r.Ok? && FormatFits(env, w, Built(types, Flatten(pages)), frames, r.value) ==> same
  {
    hide Flatten, Typed, Built, FileBytes, FormatFits, IsExpected, Compare, Keyed, BuiltFile.Valid;
    ghost var b;
    r, b := BuildMetricFile(env, w, types, pages);
    frames, same := b.frames, false;
    if r.Ok? {
      TypedIsKnown(types, Flatten(pages));
      var expected := CollectRawSamples(types, Flatten(pages));
      ExpectedIsKeyed(types, Flatten(pages), expected.value);
      var err := ComparePartition(env, r.value, expected.value);
      same := err.None?;
      if FormatFits(env, w, Built(types, Flatten(pages)), frames, r.value) {
        BuildThenCompareSucceeds(b, expected.value);
      }
    }
  }
}
