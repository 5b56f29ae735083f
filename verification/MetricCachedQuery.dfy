/**
 Range queries on V2 metric files through the two shared caches: while the file behind a key does not change, a
 query through the caches answers exactly what reading the file answers, whatever was cached or evicted before.
 */
module MetricCachedQuery {
  import opened Prelude
  import opened Bytes
  import opened Samples
  import opened MetricPlan
  import opened MetricRecords
  import opened MetricFileV2
  import opened MetricQuery
  import opened LruCaches

  /** A file's identity: path, size and modification time. */
  datatype FileKey = FileKey(path: string, size: int, modified: int)

  datatype TimeKey = TimeKey(file: FileKey, frameId: nat)

  /** A read error, or an error of the callback. */
  datatype QueryError = Unread(cause: ReadError) | CallbackFailed

  /** How a query ends whose callback was called as in c. */
  function Ending<T>(c: Calls<Sample>, end: Result<T, ReadError>): (r: Result<T, QueryError>) {
    if c.failed then Err(CallbackFailed)
    else match end case Ok(x) => Ok(x) case Err(x) => Err(Unread(x))
  }

  /** What files hold, by identity. */
  type Files = FileKey -> bytes

  function IndexWeight(ix: Indexes): nat { TIME_ENTRY_LEN * |ix.times| + METRIC_ENTRY_LEN * |ix.metrics| }

  function TimesWeight(v: Vector): nat { 8 * |v| }

  /** The index tables of a file that opens. */
  ghost predicate IsIndexOf(env: Env, f: bytes, ix: Indexes) {
    OpenForQuery(env, f).Ok? && ReadTables(f, OpenForQuery(env, f).value) == Ok(ix)
  }

  /** The timestamps of a time frame of a file that opens. */
  ghost predicate IsFrameOf(env: Env, f: bytes, frameId: nat, v: Vector) {
    exists ix: Indexes ::
      && IsIndexOf(env, f, ix) && frameId in TimeById(ix.times)
      && ReadTimeFrame(env, f, TimeById(ix.times)[frameId]) == Ok(v)
  }

  class MetricFileReader {
    const env: Env
    const indexes: LruCache<FileKey, Indexes>
    const frames: LruCache<TimeKey, Vector>

    /** Every cached value is what its file holds. */
    ghost predicate Coherent(files: Files)
      reads this, indexes, frames
    {
      && indexes.Valid() && frames.Valid() && indexes.sizeOf == IndexWeight && frames.sizeOf == TimesWeight
      && (forall k :: k in indexes.entries ==> IsIndexOf(env, files(k), indexes.entries[k].value))
      && (forall k :: k in frames.entries ==> IsFrameOf(env, files(k.file), k.frameId, frames.entries[k].value))
    }

    constructor (e: Env, ghost files: Files)
      ensures Coherent(files) && env == e && fresh(indexes) && fresh(frames)
    {
      env := e;
      indexes := new LruCache(IndexWeight);
      frames := new LruCache(TimesWeight);
    }

    /** resolveMetricFileIndexesV2. */
    method ResolveIndexes(key: FileKey, f: bytes, h: Header, ghost files: Files) returns (r: Result<Indexes, ReadError>)
      requires Coherent(files) && f == files(key) && OpenForQuery(env, f) == Ok(h)
      modifies indexes
      ensures Coherent(files) && r == ReadTables(f, h)
    {
      hide OpenForQuery, ReadTables, LruCache.Valid, IsFrameOf;
      var cached := indexes.Get(key);
      if cached.Some? { return Ok(cached.value); }
      r := ReadTables(f, h);
      if r.Ok? {
        indexes.Put(key, r.value);
      }
    }

    /** resolveMetricTimeFrameV2: the query's own map first, then the shared cache, then the file. */
    method ResolveTimes(key: FileKey, f: bytes, ix: Indexes, local0: map<nat, Vector>, e: TimeEntry, ghost files: Files)
      returns (r: Result<Vector, ReadError>, local: map<nat, Vector>)
      requires Coherent(files) && f == files(key) && IsIndexOf(env, f, ix)
      requires e.frameId in TimeById(ix.times) && TimeById(ix.times)[e.frameId] == e
      requires LocalOk(env, f, ix, local0)
      modifies frames
      ensures Coherent(files) && r == ReadTimeFrame(env, f, e) && LocalOk(env, f, ix, local)
    {
      hide OpenForQuery, ReadTables, LruCache.Valid, TimeById, ReadTimeFrame;
      if e.frameId in local0 { return Ok(local0[e.frameId]), local0; }
      var timeKey := TimeKey(key, e.frameId);
      var cached := frames.Get(timeKey);
      if cached.Some? {
        FrameIsUnique(env, f, ix, e.frameId, cached.value);
        return Ok(cached.value), local0[e.frameId := cached.value];
      }
      r := ReadTimeFrame(env, f, e);
      local := local0;
      if r.Ok? {
        assert IsFrameOf(env, f, e.frameId, r.value);
        frames.Put(timeKey, r.value);
        local := local0[e.frameId := r.value];
      }
    }

    /** One index entry of a query; `before` is what the callback has been given. */
    method QueryOne(key: FileKey, f: bytes, ix: Indexes, byId: map<nat, TimeEntry>, local0: map<nat, Vector>, t: Target,
                    e: MetricEntry, q: Range, count: nat, fails: Page -> bool, before: Page, ghost files: Files)
      returns (given: Page, r: Result<nat, QueryError>, local: map<nat, Vector>)
      requires Coherent(files) && f == files(key) && IsIndexOf(env, f, ix) && byId == TimeById(ix.times) && q.stride > 0
      requires LocalOk(env, f, ix, local0)
      modifies frames
      ensures Coherent(files) && LocalOk(env, f, ix, local)
      ensures match QueryEntry(env, f, byId, t, e, q, count)
              case Err(x) => given == before && r == Err(Unread(x))
              case Ok((more, n)) =>
                var calls := CallsFrom(fails, before, more);
                given == calls.given && r == if calls.failed then Err(CallbackFailed) else Ok(n)
    {
      hide Coherent, IsIndexOf, LocalOk, TimeById, ReadTimeFrame, ReadMetricFrame, Take;
      given, local := before, local0;
      if e.id != t.id { return given, Ok(count), local; }
      if e.end < q.from || e.start > q.to { return given, Ok(count), local; }
      if e.frameId !in byId { return given, Err(Unread(MissingTimeFrame)), local; }
      ByIdIsOwn(ix.times, e.frameId);
      var times;
      times, local := ResolveTimes(key, f, ix, local0, byId[e.frameId], files);
      if times.Err? { return given, Err(Unread(times.error)), local; }
      var raws := ReadMetricFrame(env, f, e);
      if raws.Err? { return given, Err(Unread(raws.error)), local; }
      var endOffset := e.offset + |raws.value|;
      if endOffset > |times.value| { return given, Err(Unread(SliceOutOfBounds)), local; }
      if e.valueType != t.valueType { return given, Err(Unread(ValueTypeMismatch)), local; }
      var slice := times.value[e.offset..endOffset];
      var n, failed;
      given, n, failed := CollectSamples(e, slice, raws.value, q, count, fails, before);
      r := if failed then Err(CallbackFailed) else Ok(n);
    }

    /**
     collectMetricFromMetricFileV2 through the caches: the callback gets what the query delivers, in order, up to the
     first sample it fails on.
     */
    method Query(key: FileKey, f: bytes, t: Target, q: Range, count: nat, fails: Page -> bool, ghost files: Files)
      returns (given: Page, r: Result<nat, QueryError>)
      requires Coherent(files) && f == files(key) && q.stride > 0
      modifies indexes, frames
      ensures Coherent(files)
      ensures var trace := TraceFile(env, f, t, q, count);
              var calls := CallsFrom(fails, [], trace.out);
              given == calls.given && r == Ending(calls, trace.end)
    {
      hide Coherent, OpenForQuery, ReadTables, TimeById, QueryEntry;
      given := [];
      var h := OpenForQuery(env, f);
      if h.Err? { return given, Err(Unread(h.error)); }
      var resolved := ResolveIndexes(key, f, h.value, files);
      if resolved.Err? { return given, Err(Unread(resolved.error)); }
      var ix := resolved.value;
      var byId := TimeById(ix.times);
      var local: map<nat, Vector> := map[];
      var n := count;
      ghost var es := ix.metrics;
      assert es[..0] == [];
      for k := 0 to |ix.metrics|
        invariant Coherent(files) && LocalOk(env, f, ix, local)
        invariant var trace := TraceEntries(env, f, byId, t, es[..k], q, count);
                  trace.end == Ok(n) && CallsFrom(fails, [], trace.out) == Calls(given, false)
      {
        assert es[..k + 1][..k] == es[..k];
        TraceTurn(env, f, byId, t, es, k, q, count, fails);
        given, r, local := QueryOne(key, f, ix, byId, local, t, ix.metrics[k], q, n, fails, given, files);
        if r.Err? { return; }
        n := r.value;
      }
      assert es[..|es|] == es;
      return given, Ok(n);
    }
  }

  /** One more entry: what it delivers is called on, and an error, or a call that fails, ends the query. */
  lemma TraceTurn(env: Env, f: bytes, byId: map<nat, TimeEntry>, t: Target, es: seq<MetricEntry>, k: nat, q: Range,
                  count: nat, fails: Page -> bool)
    requires q.stride > 0 && k < |es| && TraceEntries(env, f, byId, t, es[..k], q, count).end.Ok?
    ensures var prev := TraceEntries(env, f, byId, t, es[..k], q, count);
            var next, all := TraceEntries(env, f, byId, t, es[..k + 1], q, count), TraceEntries(env, f, byId, t, es, q, count);
            match QueryEntry(env, f, byId, t, es[k], q, prev.end.value)
            case Err(x) => all == Trace(prev.out, Err(x))
            case Ok((more, m)) =>
              var c := CallsFrom(fails, [], prev.out);
              && next == Trace(prev.out + more, Ok(m))
              && CallsFrom(fails, [], next.out) == (if c.failed then c else CallsFrom(fails, c.given, more))
              && (CallsFrom(fails, [], next.out).failed ==> CallsFrom(fails, [], all.out) == CallsFrom(fails, [], next.out))
  {
    hide QueryEntry, CallsFrom;
    assert es[..k + 1][..k] == es[..k];
    var prev := TraceEntries(env, f, byId, t, es[..k], q, count);
    var next, all := TraceEntries(env, f, byId, t, es[..k + 1], q, count), TraceEntries(env, f, byId, t, es, q, count);
    TraceGrows(env, f, byId, t, es, k + 1, q, count);
    match QueryEntry(env, f, byId, t, es[k], q, prev.end.value)
    case Err(x) =>
    case Ok((more, m)) =>
      CallsAppend(fails, [], prev.out, more);
      if CallsFrom(fails, [], next.out).failed {
        CallsStop(fails, [], next.out, all.out);
      }
  }

  /** More entries deliver more; after an error none does. */
  lemma {:induction false} TraceGrows(env: Env, f: bytes, byId: map<nat, TimeEntry>, t: Target, es: seq<MetricEntry>, k: nat, q: Range, count: nat)
    requires k <= |es| && q.stride > 0
    ensures var part, all := TraceEntries(env, f, byId, t, es[..k], q, count), TraceEntries(env, f, byId, t, es, q, count);
            part.out <= all.out && (part.end.Err? ==> all == part)
    decreases |es|
  {
    hide QueryEntry;
    if k == |es| {
      assert es[..k] == es;
    } else {
      assert es[..|es| - 1][..k] == es[..k];
      TraceGrows(env, f, byId, t, es[..|es| - 1], k, q, count);
    }
  }

  /** A query's own map holds frames of the file. */
  ghost predicate LocalOk(env: Env, f: bytes, ix: Indexes, local: map<nat, Vector>) {
    forall frameId :: frameId in local ==>
      frameId in TimeById(ix.times) && ReadTimeFrame(env, f, TimeById(ix.times)[frameId]) == Ok(local[frameId])
  }

  lemma FrameIsUnique(env: Env, f: bytes, ix: Indexes, frameId: nat, v: Vector)
    requires IsIndexOf(env, f, ix) && IsFrameOf(env, f, frameId, v) && frameId in TimeById(ix.times)
    ensures ReadTimeFrame(env, f, TimeById(ix.times)[frameId]) == Ok(v)
  {
  }

  lemma {:induction false} ByIdIsOwn(es: seq<TimeEntry>, frameId: nat)
    requires frameId in TimeById(es)
    ensures TimeById(es)[frameId].frameId == frameId
  {
    if es[|es| - 1].frameId != frameId {
      ByIdIsOwn(es[..|es| - 1], frameId);
    }
  }

  /** An error at one entry is the query's error. */
  lemma {:induction false} QueryStops(env: Env, f: bytes, byId: map<nat, TimeEntry>, t: Target, es: seq<MetricEntry>, k: nat, q: Range, count: nat)
    requires k <= |es| && q.stride > 0 && QueryEntries(env, f, byId, t, es[..k], q, count).Err?
    ensures QueryEntries(env, f, byId, t, es, q, count) == QueryEntries(env, f, byId, t, es[..k], q, count)
    decreases |es| - k
  {
    if k == |es| {
      assert es[..k] == es;
    } else {
      assert es[..k + 1][..k] == es[..k];
      QueryStops(env, f, byId, t, es, k + 1, q, count);
    }
  }

  /** collectInt32Samples and collectFloat32Samples. */
  method CollectSamples(e: MetricEntry, times: Vector, raws: seq<nat>, q: Range, count0: nat, fails: Page -> bool, before: Page)
    returns (given: Page, count: nat, failed: bool)
    requires |times| == |raws| && q.stride > 0
    ensures var (all, n) := Take(AsSamples(Join2(e, times, raws)), q, count0);
            CallsFrom(fails, before, all) == Calls(given, failed) && (!failed ==> count == n)
  {
    hide Take;
    ghost var ss := AsSamples(Join2(e, times, raws));
    given, count, failed := before, count0, false;
    TakeNothing(q, count0);
    assert ss[..0] == [];
    for i := 0 to |times|
      invariant var (all, n) := Take(ss[..i], q, count0);
                n == count && CallsFrom(fails, before, all) == Calls(given, false)
    {
      assert ss[..i + 1] == ss[..i] + [ss[i]];
      TakeSnoc(ss[..i], ss[i], q, count0);
      CallsSnoc(fails, before, Take(ss[..i], q, count0).0, ss[i]);
      var ts := times[i];
      if ts < q.from || ts > q.to { continue; }
      if count % q.stride != 0 {
        count := count + 1;
        continue;
      }
      count := count + 1;
      given := given + [Sample(e.id, ts, raws[i])];
      if fails(given) {
        TakeStops(ss, i + 1, q, count0, fails, before);
        return given, count, true;
      }
    }
    assert ss[..|ss|] == ss;
  }

  /** A call that fails is the last. */
  lemma TakeStops(ss: Page, k: nat, q: Range, count: nat, fails: Page -> bool, before: Page)
    requires q.stride > 0 && k <= |ss| && CallsFrom(fails, before, Take(ss[..k], q, count).0).failed
    ensures CallsFrom(fails, before, Take(ss, q, count).0) == CallsFrom(fails, before, Take(ss[..k], q, count).0)
  {
    hide Take, CallsFrom;
    assert ss == ss[..k] + ss[k..];
    TakeAppend(ss[..k], ss[k..], q, count);
    CallsStop(fails, before, Take(ss[..k], q, count).0, Take(ss, q, count).0);
  }

  lemma TakeNothing(q: Range, count: nat)
    requires q.stride > 0
    ensures Take([], q, count) == ([], count)
  {
  }
}
