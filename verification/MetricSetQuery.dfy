/**
 Range queries for a set of metrics in one pass: each target has its own count, and gets what a query of its own
 would have given it.
 */
module MetricSetQuery {
  import opened Prelude
  import opened Bytes
  import opened Samples
  import opened DataPages
  import StableSort
  import opened MetricPlan
  import opened MetricBuild
  import opened MetricRecords
  import opened MetricFileV2
  import opened MetricFileProofs
  import opened MetricQuery
  import opened MetricCachedQuery

  /** The count of each target. */
  type Counts = map<nat, nat>

  /** The type the registry has for each metric. */
  type Kinds = nat -> byte

  function TargetOf(kinds: Kinds, id: nat): Target { Target(id, kinds(id)) }

  /** Each target's share of `out`, and its count afterwards, are those of a query of its own over ss. */
  ghost predicate EachTaken(q: Range, before: Counts, ss: Page, out: Page, after: Counts)
    requires q.stride > 0
  {
    && after.Keys == before.Keys && OnlyTargets(before, out)
    && forall id :: id in before ==> Take(OfMetric(ss, id), q, before[id]) == (OfMetric(out, id), after[id])
  }

  ghost predicate OnlyTargets(targets: Counts, out: Page) {
    forall s :: s in out ==> s.id in targets
  }

  lemma NothingEach(q: Range, before: Counts)
    requires q.stride > 0
    ensures EachTaken(q, before, [], [], before)
  {
  }

  lemma EachAppend(q: Range, a: Counts, ss: Page, out: Page, b: Counts, ts: Page, more: Page, c: Counts)
    requires q.stride > 0 && EachTaken(q, a, ss, out, b) && EachTaken(q, b, ts, more, c)
    ensures EachTaken(q, a, ss + ts, out + more, c)
  {
    hide Take, OfMetric;
    forall id | id in a ensures Take(OfMetric(ss + ts, id), q, a[id]) == (OfMetric(out + more, id), c[id]) {
      OfMetricAppend(ss, ts, id);
      OfMetricAppend(out, more, id);
      TakeAppend(OfMetric(ss, id), OfMetric(ts, id), q, a[id]);
    }
  }

  /** What one sample gives its target, and nobody else. */
  lemma EachOne(q: Range, before: Counts, s: Sample)
    requires q.stride > 0
    ensures s.id !in before || !q.Holds(s.ts) ==> EachTaken(q, before, [s], [], before)
    ensures s.id in before && q.Holds(s.ts) ==>
              var n := before[s.id];
              EachTaken(q, before, [s], if n % q.stride != 0 then [] else [s], before[s.id := n + 1])
  {
    forall id ensures OfMetric([s], id) == if s.id == id then [s] else [] {
      assert [s] == [] + [s];
      OfMetricSnoc([], s, id);
    }
    assert [s][..0] == [];
    forall id | id in before
      ensures Take([s], q, before[id])
              == if !q.Holds(s.ts) then ([], before[id])
                 else (if before[id] % q.stride != 0 then [] else [s], before[id] + 1)
    {
      assert [] + [s] == [s];
      TakeSnoc([], s, q, before[id]);
    }
  }

  /** collectMetricSetFromPage. */
  method CollectSetFromPage(page: Page, q: Range, before: Counts) returns (out: Page, after: Counts)
    requires q.stride > 0
    ensures EachTaken(q, before, page, out, after)
  {
    hide EachTaken;
    out, after := [], before;
    NothingEach(q, before);
    assert page[..0] == [];
    for i := 0 to |page|
      invariant EachTaken(q, before, page[..i], out, after)
    {
      var s := page[i];
      assert page[..i + 1] == page[..i] + [s];
      EachOne(q, after, s);
      if s.id !in after || s.ts < q.from || s.ts > q.to {
        EachAppend(q, before, page[..i], out, after, [s], [], after);
        assert out + [] == out;
        continue;
      }
      var n := after[s.id];
      var taken := if n % q.stride != 0 then [] else [s];
      EachAppend(q, before, page[..i], out, after, [s], taken, after[s.id := n + 1]);
      after := after[s.id := n + 1];
      out := out + taken;
    }
    assert page[..|page|] == page;
  }

  lemma PrunedEach(p: Stored, q: Range, before: Counts)
    requires q.stride > 0 && Consistent(p) && !Overlaps(p.start, p.end, q)
    ensures EachTaken(q, before, p.samples, [], before)
  {
    hide Take, OfMetric;
    forall id | id in before ensures Take(OfMetric(p.samples, id), q, before[id]) == (OfMetric([], id), before[id]) {
      PrunedPage(p, id, q, before[id]);
      NothingTaken(id, q, before[id]);
    }
  }

  /** collectMetricSetFromFile: header pruning drops no match of any target. */
  method CollectSetFromPages(pages: seq<Stored>, q: Range, before: Counts) returns (out: Page, after: Counts)
    requires q.stride > 0 && forall i :: 0 <= i < |pages| ==> Consistent(pages[i])
    ensures EachTaken(q, before, SamplesIn(pages), out, after)
  {
    hide EachTaken, Consistent;
    out, after := [], before;
    NothingEach(q, before);
    assert pages[..0] == [];
    for i := 0 to |pages|
      invariant EachTaken(q, before, SamplesIn(pages[..i]), out, after)
    {
      assert pages[..i + 1][..i] == pages[..i];
      var more, next := [], after;
      if pages[i].end < q.from || pages[i].start > q.to {
        PrunedEach(pages[i], q, after);
      } else {
        more, next := CollectSetFromPage(pages[i].samples, q, after);
      }
      EachAppend(q, before, SamplesIn(pages[..i]), out, after, pages[i].samples, more, next);
      out, after := out + more, next;
    }
    assert pages[..|pages|] == pages;
  }

  // ---------------------------------------------------------------- the V2 file

  /** Each target's share of `out`, and its count afterwards, are those of a query of its own on the entries. */
  ghost predicate EachAnswered(env: Env, f: bytes, byId: map<nat, TimeEntry>, kinds: Kinds, es: seq<MetricEntry>, q: Range,
                               before: Counts, out: Page, after: Counts)
    requires q.stride > 0
  {
    && after.Keys == before.Keys && OnlyTargets(before, out)
    && forall id :: id in before ==> QueryEntries(env, f, byId, TargetOf(kinds, id), es, q, before[id]) == Ok((OfMetric(out, id), after[id]))
  }

  lemma {:induction false} TakenAreOwn(ss: Page, q: Range, count: nat, own: nat)
    requires q.stride > 0 && forall s :: s in ss ==> s.id == own
    ensures forall s :: s in Take(ss, q, count).0 ==> s.id == own
  {
    if ss != [] {
      assert ss == ss[..|ss| - 1] + [ss[|ss| - 1]];
      TakenAreOwn(ss[..|ss| - 1], q, count, own);
    }
  }

  lemma {:induction false} OwnMetric(ss: Page, own: nat, id: nat)
    requires forall s :: s in ss ==> s.id == own
    ensures OfMetric(ss, id) == if id == own then ss else []
  {
    if ss != [] {
      assert ss == ss[..|ss| - 1] + [ss[|ss| - 1]];
      OfMetricSnoc(ss[..|ss| - 1], ss[|ss| - 1], id);
      OwnMetric(ss[..|ss| - 1], own, id);
    }
  }

  /** One entry answers for its own metric only. */
  lemma AnsweredOwn(env: Env, f: bytes, byId: map<nat, TimeEntry>, kinds: Kinds, e: MetricEntry, q: Range, count: nat, id: nat)
    requires q.stride > 0 && QueryEntry(env, f, byId, TargetOf(kinds, e.id), e, q, count).Ok?
    ensures var out := QueryEntry(env, f, byId, TargetOf(kinds, e.id), e, q, count).value.0;
            (forall s :: s in out ==> s.id == e.id) && OfMetric(out, id) == if id == e.id then out else []
  {
    hide ReadTimeFrame, ReadMetricFrame, Take, OfMetric;
    if Overlaps(e.start, e.end, q) {
      TakenAreOwn(AsSamples(WalkEntry(env, f, byId, e).value), q, count, e.id);
    }
    OwnMetric(QueryEntry(env, f, byId, TargetOf(kinds, e.id), e, q, count).value.0, e.id, id);
  }

  lemma NothingAnswered(env: Env, f: bytes, byId: map<nat, TimeEntry>, kinds: Kinds, q: Range, before: Counts)
    requires q.stride > 0
    ensures EachAnswered(env, f, byId, kinds, [], q, before, [], before)
  {
  }

  lemma AnswerSkipped(env: Env, f: bytes, byId: map<nat, TimeEntry>, kinds: Kinds, es: seq<MetricEntry>, q: Range,
                      before: Counts, out: Page, after: Counts, e: MetricEntry)
    requires q.stride > 0 && EachAnswered(env, f, byId, kinds, es, q, before, out, after) && e.id !in before
    ensures EachAnswered(env, f, byId, kinds, es + [e], q, before, out, after)
  {
    hide OfMetric;
    assert (es + [e])[..|es|] == es;
    forall id | id in before
      ensures QueryEntries(env, f, byId, TargetOf(kinds, id), es + [e], q, before[id]) == Ok((OfMetric(out, id), after[id]))
    {
      assert OfMetric(out, id) + [] == OfMetric(out, id);
    }
  }

  lemma AnswerNext(env: Env, f: bytes, byId: map<nat, TimeEntry>, kinds: Kinds, es: seq<MetricEntry>, q: Range,
                   before: Counts, out: Page, after: Counts, e: MetricEntry)
    requires q.stride > 0 && EachAnswered(env, f, byId, kinds, es, q, before, out, after) && e.id in before
    requires QueryEntry(env, f, byId, TargetOf(kinds, e.id), e, q, after[e.id]).Ok?
    ensures var (more, n) := QueryEntry(env, f, byId, TargetOf(kinds, e.id), e, q, after[e.id]).value;
            EachAnswered(env, f, byId, kinds, es + [e], q, before, out + more, after[e.id := n])
  {
    hide OfMetric, WalkEntry, Take;
    assert (es + [e])[..|es|] == es;
    var (more, n) := QueryEntry(env, f, byId, TargetOf(kinds, e.id), e, q, after[e.id]).value;
    var next := after[e.id := n];
    AnsweredOwn(env, f, byId, kinds, e, q, after[e.id], e.id);
    forall id | id in before
      ensures QueryEntries(env, f, byId, TargetOf(kinds, id), es + [e], q, before[id]) == Ok((OfMetric(out + more, id), next[id]))
    {
      OfMetricAppend(out, more, id);
      AnsweredOwn(env, f, byId, kinds, e, q, after[e.id], id);
      assert OfMetric(out, id) + [] == OfMetric(out, id);
    }
  }

  /** A target whose own query fails at an entry fails on the whole file. */
  lemma AnswerFails(env: Env, f: bytes, byId: map<nat, TimeEntry>, kinds: Kinds, es: seq<MetricEntry>, k: nat, q: Range,
                    before: Counts, out: Page, after: Counts)
    requires q.stride > 0 && k < |es| && EachAnswered(env, f, byId, kinds, es[..k], q, before, out, after)
    requires es[k].id in before && QueryEntry(env, f, byId, TargetOf(kinds, es[k].id), es[k], q, after[es[k].id]).Err?
    ensures QueryEntries(env, f, byId, TargetOf(kinds, es[k].id), es, q, before[es[k].id])
            == Err(QueryEntry(env, f, byId, TargetOf(kinds, es[k].id), es[k], q, after[es[k].id]).error)
  {
    hide QueryEntry, OfMetric;
    assert es[..k + 1][..k] == es[..k];
    QueryStops(env, f, byId, TargetOf(kinds, es[k].id), es, k + 1, q, before[es[k].id]);
  }

  // ---------------------------------------------------------------- one pass

  /** What a pass over the entries delivers before it ends, and how it ends. */
  datatype SetTrace = SetTrace(out: Page, end: Result<Counts, ReadError>)

  function TraceSet(env: Env, f: bytes, byId: map<nat, TimeEntry>, kinds: Kinds, es: seq<MetricEntry>, q: Range, before: Counts)
    : (r: SetTrace)
    requires q.stride > 0
  {
    if es == [] then SetTrace([], Ok(before))
    else
      var prev := TraceSet(env, f, byId, kinds, es[..|es| - 1], q, before);
      var e := es[|es| - 1];
      if prev.end.Err? || e.id !in prev.end.value then prev
      else
        var counts := prev.end.value;
        match QueryEntry(env, f, byId, TargetOf(kinds, e.id), e, q, counts[e.id])
        case Err(x) => SetTrace(prev.out, Err(x))
        case Ok((more, n)) => SetTrace(prev.out + more, Ok(counts[e.id := n]))
  }

  function TraceSetFile(env: Env, f: bytes, kinds: Kinds, q: Range, before: Counts): (r: SetTrace)
    requires q.stride > 0
  {
    match OpenForQuery(env, f)
    case Err(x) => SetTrace([], Err(x))
    case Ok(h) =>
      match ReadTables(f, h)
      case Err(x) => SetTrace([], Err(x))
      case Ok(ix) => TraceSet(env, f, TimeById(ix.times), kinds, ix.metrics, q, before)
  }

  /** The first entry at which the pass ends with an error. */
  lemma {:induction false} TraceSetStops(env: Env, f: bytes, byId: map<nat, TimeEntry>, kinds: Kinds, es: seq<MetricEntry>, k: nat,
                                         q: Range, before: Counts)
    requires q.stride > 0 && k <= |es|
    ensures var part, all := TraceSet(env, f, byId, kinds, es[..k], q, before), TraceSet(env, f, byId, kinds, es, q, before);
            part.out <= all.out && (part.end.Err? ==> all == part)
    decreases |es|
  {
    hide QueryEntry;
    if k == |es| {
      assert es[..k] == es;
    } else {
      assert es[..|es| - 1][..k] == es[..k];
      TraceSetStops(env, f, byId, kinds, es[..|es| - 1], k, q, before);
    }
  }

  /** A pass that ends well answers each target's own query; one that does not, ends with an error that one of them does. */
  lemma {:induction false} TraceSetAnswers(env: Env, f: bytes, byId: map<nat, TimeEntry>, kinds: Kinds, es: seq<MetricEntry>,
                                           k: nat, q: Range, before: Counts)
    requires q.stride > 0 && k <= |es|
    ensures var trace := TraceSet(env, f, byId, kinds, es[..k], q, before);
            match trace.end
            case Ok(after) => EachAnswered(env, f, byId, kinds, es[..k], q, before, trace.out, after)
            case Err(x) => exists id :: id in before && QueryEntries(env, f, byId, TargetOf(kinds, id), es, q, before[id]) == Err(x)
  {
    hide QueryEntry, QueryEntries, OfMetric, EachAnswered;
    if k == 0 {
      NothingAnswered(env, f, byId, kinds, q, before);
      assert es[..0] == [];
    } else {
      TraceSetAnswers(env, f, byId, kinds, es, k - 1, q, before);
      assert es[..k][..k - 1] == es[..k - 1] && es[..k] == es[..k - 1] + [es[k - 1]];
      var prev := TraceSet(env, f, byId, kinds, es[..k - 1], q, before);
      if prev.end.Ok? {
        var e, counts := es[k - 1], prev.end.value;
        KeepsTargets(env, f, byId, kinds, es[..k - 1], q, before, prev.out, counts);
        if e.id !in counts {
          AnswerSkipped(env, f, byId, kinds, es[..k - 1], q, before, prev.out, counts, e);
        } else if QueryEntry(env, f, byId, TargetOf(kinds, e.id), e, q, counts[e.id]).Ok? {
          AnswerNext(env, f, byId, kinds, es[..k - 1], q, before, prev.out, counts, e);
        } else {
          AnswerFails(env, f, byId, kinds, es, k - 1, q, before, prev.out, counts);
        }
      }
    }
  }

  lemma KeepsTargets(env: Env, f: bytes, byId: map<nat, TimeEntry>, kinds: Kinds, es: seq<MetricEntry>, q: Range,
                     before: Counts, out: Page, after: Counts)
    requires q.stride > 0 && EachAnswered(env, f, byId, kinds, es, q, before, out, after)
    ensures after.Keys == before.Keys && OnlyTargets(before, out)
  {
  }

  /** What a whole pass means for each target. */
  lemma TraceSetFileAnswers(env: Env, f: bytes, kinds: Kinds, q: Range, before: Counts)
    requires q.stride > 0 && before != map[]
    ensures var trace := TraceSetFile(env, f, kinds, q, before);
            match trace.end
            case Ok(after) =>
              && after.Keys == before.Keys && OnlyTargets(before, trace.out)
              && forall id :: id in before ==> QueryFile(env, f, TargetOf(kinds, id), q, before[id]) == Ok((OfMetric(trace.out, id), after[id]))
            case Err(x) => exists id :: id in before && QueryFile(env, f, TargetOf(kinds, id), q, before[id]) == Err(x)
  {
    hide OpenForQuery, ReadTables, TimeById, QueryEntries, OfMetric, OnlyTargets, TraceSet;
    var some := SomeTarget(before);
    if OpenForQuery(env, f).Ok? && ReadTables(f, OpenForQuery(env, f).value).Ok? {
      var ix := ReadTables(f, OpenForQuery(env, f).value).value;
      TraceSetAnswers(env, f, TimeById(ix.times), kinds, ix.metrics, |ix.metrics|, q, before);
      assert ix.metrics[..|ix.metrics|] == ix.metrics;
      var trace := TraceSet(env, f, TimeById(ix.times), kinds, ix.metrics, q, before);
      if trace.end.Err? {
        var id :| id in before && QueryEntries(env, f, TimeById(ix.times), TargetOf(kinds, id), ix.metrics, q, before[id]) == Err(trace.end.error);
        assert QueryFile(env, f, TargetOf(kinds, id), q, before[id]) == Err(trace.end.error);
      }
    } else {
      var x := TraceSetFile(env, f, kinds, q, before).end.error;
      assert QueryFile(env, f, TargetOf(kinds, some), q, before[some]) == Err(x);
    }
  }

  lemma SomeTarget(before: Counts) returns (id: nat)
    requires before != map[]
    ensures id in before
  {
    assert before.Keys != {};
    id :| id in before;
  }

  /**
   collectMetricSetFromMetricFileV2 through the caches: the callback gets what the pass delivers, in order, up to the first
   sample it fails on. When it fails on none, every target gets what a query of its own would give it, and the pass fails
   exactly when some target's own query does.
   */
  method QuerySet(reader: MetricFileReader, key: FileKey, f: bytes, kinds: Kinds, q: Range, before: Counts,
                  fails: Page -> bool, ghost files: Files)
    returns (given: Page, r: Result<Counts, QueryError>)
    requires reader.Coherent(files) && f == files(key) && q.stride > 0 && before != map[]
    modifies reader.indexes, reader.frames
    ensures reader.Coherent(files)
    ensures var trace := TraceSetFile(reader.env, f, kinds, q, before);
            var calls := CallsFrom(fails, [], trace.out);
            given == calls.given && r == Ending(calls, trace.end)
    ensures r.Ok? ==>
              && r.value.Keys == before.Keys && OnlyTargets(before, given)
              && forall id :: id in before ==>
                   QueryFile(reader.env, f, TargetOf(kinds, id), q, before[id]) == Ok((OfMetric(given, id), r.value[id]))
    ensures r.Err? && r.error.Unread? ==>
              exists id :: id in before && QueryFile(reader.env, f, TargetOf(kinds, id), q, before[id]) == Err(r.error.cause)
  {
    hide MetricFileReader.Coherent, OpenForQuery, ReadTables, TimeById, QueryEntry, TraceSet, OfMetric, OnlyTargets, QueryFile;
    given := [];
    TraceSetFileAnswers(reader.env, f, kinds, q, before);
    var h := OpenForQuery(reader.env, f);
    if h.Err? { return given, Err(Unread(h.error)); }
    var resolved := reader.ResolveIndexes(key, f, h.value, files);
    if resolved.Err? { return given, Err(Unread(resolved.error)); }
    given, r := QueryEntrySet(reader, key, f, resolved.value, kinds, q, before, fails, files);
    CallsAre(fails, [], TraceSetFile(reader.env, f, kinds, q, before).out);
    NothingBefore(TraceSetFile(reader.env, f, kinds, q, before).out);
  }

  lemma NothingBefore(out: Page)
    ensures [] + out == out
  {
  }

  /** The loop over the index entries. */
  method QueryEntrySet(reader: MetricFileReader, key: FileKey, f: bytes, ix: Indexes, kinds: Kinds, q: Range, before: Counts,
                       fails: Page -> bool, ghost files: Files)
    returns (given: Page, r: Result<Counts, QueryError>)
    requires reader.Coherent(files) && f == files(key) && q.stride > 0 && IsIndexOf(reader.env, f, ix)
    modifies reader.indexes, reader.frames
    ensures reader.Coherent(files)
    ensures var trace := TraceSet(reader.env, f, TimeById(ix.times), kinds, ix.metrics, q, before);
            var calls := CallsFrom(fails, [], trace.out);
            given == calls.given && r == Ending(calls, trace.end)
  {
    hide MetricFileReader.Coherent, IsIndexOf, TimeById, QueryEntry;
    var byId, es := TimeById(ix.times), ix.metrics;
    var local: map<nat, Vector> := map[];
    given := [];
    var after := before;
    assert es[..0] == [];
    for k := 0 to |es|
      invariant reader.Coherent(files) && LocalOk(reader.env, f, ix, local)
      invariant var trace := TraceSet(reader.env, f, byId, kinds, es[..k], q, before);
                trace.end == Ok(after) && CallsFrom(fails, [], trace.out) == Calls(given, false)
    {
      assert es[..k + 1][..k] == es[..k];
      SetTurn(reader.env, f, byId, kinds, es, k, q, before, fails);
      if es[k].id !in after { continue; }
      var one;
      given, one, local := reader.QueryOne(key, f, ix, byId, local, TargetOf(kinds, es[k].id), es[k], q, after[es[k].id], fails, given, files);
      if one.Err? { return given, Err(one.error); }
      after := after[es[k].id := one.value];
    }
    assert es[..|es|] == es;
    return given, Ok(after);
  }

  /** One more entry of the pass: skipped, or its samples called on, or an error. */
  lemma SetTurn(env: Env, f: bytes, byId: map<nat, TimeEntry>, kinds: Kinds, es: seq<MetricEntry>, k: nat, q: Range,
                before: Counts, fails: Page -> bool)
    requires q.stride > 0 && k < |es| && TraceSet(env, f, byId, kinds, es[..k], q, before).end.Ok?
    ensures var prev := TraceSet(env, f, byId, kinds, es[..k], q, before);
            var next, all := TraceSet(env, f, byId, kinds, es[..k + 1], q, before), TraceSet(env, f, byId, kinds, es, q, before);
            var id, counts := es[k].id, prev.end.value;
            if id !in counts then next == prev
            else
              match QueryEntry(env, f, byId, TargetOf(kinds, id), es[k], q, counts[id])
              case Err(x) => all == SetTrace(prev.out, Err(x))
              case Ok((more, m)) =>
                var c := CallsFrom(fails, [], prev.out);
                && next == SetTrace(prev.out + more, Ok(counts[id := m]))
                && CallsFrom(fails, [], next.out) == (if c.failed then c else CallsFrom(fails, c.given, more))
                && (CallsFrom(fails, [], next.out).failed ==> CallsFrom(fails, [], all.out) == CallsFrom(fails, [], next.out))
  {
    hide QueryEntry, CallsFrom;
    assert es[..k + 1][..k] == es[..k];
    var prev := TraceSet(env, f, byId, kinds, es[..k], q, before);
    var next, all := TraceSet(env, f, byId, kinds, es[..k + 1], q, before), TraceSet(env, f, byId, kinds, es, q, before);
    TraceSetStops(env, f, byId, kinds, es, k + 1, q, before);
    var id, counts := es[k].id, prev.end.value;
    if id in counts && QueryEntry(env, f, byId, TargetOf(kinds, id), es[k], q, counts[id]).Ok? {
      var (more, m) := QueryEntry(env, f, byId, TargetOf(kinds, id), es[k], q, counts[id]).value;
      CallsAppend(fails, [], prev.out, more);
      if CallsFrom(fails, [], next.out).failed {
        CallsStop(fails, [], next.out, all.out);
      }
    }
  }

  /**
   A pass over the file built from a data file gives every target the samples a pass over the data file gives it,
   for every range, stride and counts, when the targets' samples are in time order in the data file.
   */
  lemma SameSetAnswers(b: BuiltFile, kinds: Kinds, q: Range, before: Counts, raw: Page, rawAfter: Counts, id: nat)
    requires b.Valid() && q.stride > 0 && id in before && b.types(id) == Some(kinds(id))
    requires EachTaken(q, before, b.all, raw, rawAfter)
    requires StableSort.SortedBy(TimeOf, OfMetric(b.all, id))
    ensures QueryFile(b.env, b.Bytes(), TargetOf(kinds, id), q, before[id]) == Ok((OfMetric(raw, id), rawAfter[id]))
  {
    hide BuiltFile.Valid, QueryFile, Take, OfMetric;
    SameAnswersIff(b, TargetOf(kinds, id));
  }
}
