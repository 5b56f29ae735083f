/**
 Time-range queries over the events of one database: files are pruned by frame headers, surviving frames
 are decoded, and open pages follow. The answer is exactly the stored records that match.
 */
module EventsQuery {
  import opened Prelude
  import opened Bytes
  import opened Names
  import opened Frames
  import opened Codec
  import opened EventsCatalog
  import opened EventsWal
  import opened EventsFrames
  import opened EventsPages
  import opened EventsFiles
  import opened EventsEngine
  import opened EventsInvariant
  import opened EventsDatabase

  /** A query with its name already trimmed; the empty name matches every event. */
  datatype Query = Query(name: Name, from: Timestamp, to: Timestamp)

  datatype Hit = Hit(name: Name, rec: Record)

  predicate Matches(c: Catalog, q: Query, r: Record) {
    && q.from <= r.ts <= q.to
    && (q.name == [] || (r.id in c.names && c.names[r.id] == q.name))
  }

  /** The matching records of rs, in order. */
  function Select(c: Catalog, q: Query, rs: seq<Record>): (s: seq<Record>) {
    if rs == [] then []
    else
      var r := rs[|rs| - 1];
      Select(c, q, rs[..|rs| - 1]) + if Matches(c, q, r) then [r] else []
  }

  lemma SelectSnoc(c: Catalog, q: Query, rs: seq<Record>, r: Record)
    ensures Select(c, q, rs + [r]) == Select(c, q, rs) + if Matches(c, q, r) then [r] else []
  {
    assert (rs + [r])[..|rs|] == rs;
  }

  lemma {:induction false} SelectAppend(c: Catalog, q: Query, rs: seq<Record>, ts: seq<Record>)
    ensures Select(c, q, rs + ts) == Select(c, q, rs) + Select(c, q, ts)
    decreases |ts|
  {
    if ts == [] {
      assert rs + ts == rs;
    } else {
      var init, last := ts[..|ts| - 1], ts[|ts| - 1];
      assert rs + ts == (rs + init) + [last];
      SelectAppend(c, q, rs, init);
      SelectSnoc(c, q, rs + init, last);
    }
  }

  /** Selecting keeps every matching occurrence and no other. */
  lemma {:induction false} SelectCounts(c: Catalog, q: Query, rs: seq<Record>, r: Record)
    ensures multiset(Select(c, q, rs))[r] == if Matches(c, q, r) then multiset(rs)[r] else 0
  {
    if rs != [] {
      var init, last := rs[..|rs| - 1], rs[|rs| - 1];
      assert rs == init + [last];
      SelectCounts(c, q, init, r);
    }
  }

  // ---------------------------------------------------------------- pruning

  /** What the header test lets through. */
  predicate MayMatch(h: Header, q: Query, id: Option<nat>) {
    && h.end >= q.from && h.start <= q.to
    && (id.Some? ==> id.value < BITMAP_BITS && h.bits[id.value])
  }

  /** The id a query's name stands for. */
  predicate IdFor(c: Catalog, q: Query, id: Option<nat>) {
    if q.name == [] then id == None
    else q.name in c.events && id == Some(c.events[q.name].id)
  }

  lemma {:induction false} NothingSelected(c: Catalog, q: Query, rs: seq<Record>)
    requires forall r :: r in rs ==> !Matches(c, q, r)
    ensures Select(c, q, rs) == []
  {
    if rs != [] {
      assert rs == rs[..|rs| - 1] + [rs[|rs| - 1]];
      NothingSelected(c, q, rs[..|rs| - 1]);
    }
  }

  /** Pruning a frame by its header drops no match. */
  lemma PrunedHasNoMatch(c: Catalog, q: Query, id: Option<nat>, rs: seq<Record>, compressedLen: nat)
    requires Dense(c) && IdFor(c, q, id) && rs != [] && Typed(c, rs)
    requires !MayMatch(HeaderOf(rs, compressedLen), q, id)
    ensures Select(c, q, rs) == []
  {
    BoundsAreTight(rs);
    if id.Some? {
      assert id.value < BITMAP_BITS;
      BitmapIsExact(rs, id.value);
    }
    forall r | r in rs ensures !Matches(c, q, r) {
      assert TypeOf(c, r.id) == Some(r.valueType);
    }
    NothingSelected(c, q, rs);
  }

  // ---------------------------------------------------------------- what a query answers

  /** The matching records of the partitions ps, partition by partition. */
  function Gather(c: Catalog, q: Query, held: Part -> seq<Record>, ps: seq<Part>): (s: seq<Record>) {
    if ps == [] then [] else Gather(c, q, held, ps[..|ps| - 1]) + Select(c, q, held(ps[|ps| - 1]))
  }

  ghost predicate ListsAscending(ps: seq<Part>, keys: set<Part>) {
    && (forall i, j :: 0 <= i < j < |ps| ==> ps[i] < ps[j])
    && (forall p :: p in ps <==> p in keys)
  }

  function InFiles(d: Disk): Part -> seq<Record> {
    p => Flatten(FramesIn(d, p))
  }

  function InPages(m: Mem): Part -> seq<Record> {
    p => OpenIn(m, p)
  }

  /** The sealed files in partition order, then the open pages in partition order. */
  function Answer(at: Point, q: Query, sealed: seq<Part>, open: seq<Part>): (s: seq<Record>) {
    Gather(at.mem.cat, q, InFiles(at.disk), sealed) + Gather(at.mem.cat, q, InPages(at.mem), open)
  }

  ghost predicate HeldByPart(cfg: Config, held: Part -> seq<Record>) {
    forall p, r :: r in held(p) ==> cfg.part(r.ts) == p
  }

  lemma {:induction false} GatherCounts(cfg: Config, c: Catalog, q: Query, held: Part -> seq<Record>, ps: seq<Part>, r: Record)
    requires forall i, j :: 0 <= i < j < |ps| ==> ps[i] < ps[j]
    requires HeldByPart(cfg, held)
    ensures var p := cfg.part(r.ts);
            multiset(Gather(c, q, held, ps))[r] == if Matches(c, q, r) && p in ps then multiset(held(p))[r] else 0
  {
    if ps != [] {
      var init, last := ps[..|ps| - 1], ps[|ps| - 1];
      assert ps == init + [last];
      GatherCounts(cfg, c, q, held, init, r);
      SelectCounts(c, q, held(last), r);
      if last != cfg.part(r.ts) {
        assert r !in held(last);
      }
    }
  }

  lemma FilesHeldByPart(cfg: Config, at: Point)
    requires Inv(cfg, at)
    ensures HeldByPart(cfg, InFiles(at.disk)) && HeldByPart(cfg, InPages(at.mem))
  {
    hide DiskOk, CatOk, Tracks, Typed;
    forall p, r | r in InFiles(at.disk)(p) ensures cfg.part(r.ts) == p {
      FlattenMember(FramesIn(at.disk, p), r);
      var i :| 0 <= i < |FramesIn(at.disk, p)| && r in FramesIn(at.disk, p)[i];
      assert Belongs(cfg, at.mem.cat, p, at.disk.files[p][i]);
    }
    forall p, r | r in InPages(at.mem)(p) ensures cfg.part(r.ts) == p {
      assert Belongs(cfg, at.mem.cat, p, at.mem.open[p]);
    }
  }

  /** A query answers, as a multiset, exactly the stored records that match it. */
  lemma AnswerIsExact(cfg: Config, at: Point, q: Query, sealed: seq<Part>, open: seq<Part>, r: Record)
    requires Inv(cfg, at) && ListsAscending(sealed, at.disk.files.Keys) && ListsAscending(open, at.mem.open.Keys)
    ensures multiset(Answer(at, q, sealed, open))[r]
            == if Matches(at.mem.cat, q, r) then multiset(Stored(at, cfg.part(r.ts)))[r] else 0
  {
    FilesHeldByPart(cfg, at);
    hide Inv, Gather, Matches, Flatten;
    GatherCounts(cfg, at.mem.cat, q, InFiles(at.disk), sealed, r);
    GatherCounts(cfg, at.mem.cat, q, InPages(at.mem), open, r);
    EmptyFlat();
  }

  lemma EmptyFlat()
    ensures Flatten<Record>([]) == []
  {
  }

  // ---------------------------------------------------------------- the partition lists

  ghost predicate Sorted(s: seq<Part>) {
    forall i, j :: 0 <= i < j < |s| ==> s[i] <= s[j]
  }

  /** sortStringsAscending. */
  method SortAscending(a: array<Part>)
    modifies a
    ensures Sorted(a[..]) && multiset(a[..]) == multiset(old(a[..]))
  {
    var i := 1;
    while i < a.Length
      invariant 1 <= i && (a.Length > 0 ==> i <= a.Length)
      invariant forall m, n :: 0 <= m < n < i && n < a.Length ==> a[m] <= a[n]
      invariant multiset(a[..]) == multiset(old(a[..]))
    {
      var j := i;
      while j > 0 && a[j - 1] > a[j]
        invariant 0 <= j <= i
        invariant forall m, n :: 0 <= m < n <= i && n != j ==> a[m] <= a[n]
        invariant multiset(a[..]) == multiset(old(a[..]))
      {
        a[j - 1], a[j] := a[j], a[j - 1];
        j := j - 1;
      }
      i := i + 1;
    }
  }

  lemma CountedTwice(ps: seq<Part>, i: nat, j: nat)
    requires i < j < |ps| && ps[i] == ps[j]
    ensures multiset(ps)[ps[i]] >= 2
  {
    assert ps == ps[..i] + [ps[i]] + ps[i + 1..j] + [ps[j]] + ps[j + 1..];
  }

  lemma SortedKeys(ps: seq<Part>, keys: set<Part>)
    requires Sorted(ps) && multiset(ps) == multiset(keys)
    ensures ListsAscending(ps, keys)
  {
    forall p ensures p in ps <==> p in keys {
      assert p in multiset(ps) <==> p in multiset(keys);
    }
    forall i, j | 0 <= i < j < |ps| ensures ps[i] < ps[j] {
      if ps[i] == ps[j] {
        CountedTwice(ps, i, j);
        assert false;
      }
    }
  }

  /** The keys of a map, gathered in any order and sorted. */
  method ListKeys(keys: set<Part>) returns (ps: seq<Part>)
    ensures ListsAscending(ps, keys)
  {
    var out: seq<Part> := [];
    var rest := keys;
    while rest != {}
      invariant rest <= keys && multiset(out) + multiset(rest) == multiset(keys)
      decreases |rest|
    {
      HasMember(rest);
      var p :| p in rest;
      assert multiset(rest) == multiset(rest - {p}) + multiset{p};
      out := out + [p];
      rest := rest - {p};
    }
    var a := new Part[|out|](i requires 0 <= i < |out| => out[i]);
    assert a[..] == out;
    SortAscending(a);
    ps := a[..];
    SortedKeys(ps, keys);
  }

  // ---------------------------------------------------------------- emitting

  /** The records with the names their ids resolve to. */
  function Named(c: Catalog, rs: seq<Record>): (hs: seq<Hit>)
    requires forall r :: r in rs ==> r.id in c.names
    ensures |hs| == |rs|
  {
    seq(|rs|, i requires 0 <= i < |rs| => Hit(c.names[rs[i].id], rs[i]))
  }

  ghost predicate Known(c: Catalog, rs: seq<Record>) {
    forall r :: r in rs ==> r.id in c.names
  }

  lemma TypedIsKnown(c: Catalog, rs: seq<Record>)
    requires Typed(c, rs)
    ensures Known(c, rs)
  {
    forall r | r in rs ensures r.id in c.names {
      assert TypeOf(c, r.id) == Some(r.valueType);
    }
  }

  lemma {:induction false} SelectedKnown(c: Catalog, q: Query, rs: seq<Record>)
    requires Known(c, rs)
    ensures Known(c, Select(c, q, rs))
  {
    if rs != [] {
      var init, last := rs[..|rs| - 1], rs[|rs| - 1];
      assert rs == init + [last];
      SelectedKnown(c, q, init);
    }
  }

  /** The hits of rs. */
  ghost function Hits(c: Catalog, q: Query, rs: seq<Record>): (hs: seq<Hit>)
    requires Known(c, rs)
  {
    SelectedKnown(c, q, rs);
    Named(c, Select(c, q, rs))
  }

  lemma HitsAppend(c: Catalog, q: Query, rs: seq<Record>, ts: seq<Record>)
    requires Known(c, rs) && Known(c, ts)
    ensures Known(c, rs + ts) && Hits(c, q, rs + ts) == Hits(c, q, rs) + Hits(c, q, ts)
  {
    SelectAppend(c, q, rs, ts);
    SelectedKnown(c, q, rs);
    SelectedKnown(c, q, ts);
  }

  lemma HitsNone(c: Catalog, q: Query)
    ensures Known(c, []) && Hits(c, q, []) == []
  {
  }

  lemma HitsOne(c: Catalog, q: Query, r: Record)
    requires Known(c, [r])
    ensures Hits(c, q, [r]) == if Matches(c, q, r) then [Hit(c.names[r.id], r)] else []
  {
    assert r in [r] && [r][..0] == [];
    assert Select(c, q, [r]) == if Matches(c, q, r) then [r] else [];
  }

  /** emitMatchingEvents: the page's hits follow what was emitted before. */
  method EmitMatching(cat: EventCatalog, page: EventsPage, q: Query, id: Option<nat>, before: seq<Hit>)
    returns (out: seq<Hit>)
    requires page.Aligned() && Dense(cat.View()) && IdFor(cat.View(), q, id) && Known(cat.View(), page.Records())
    ensures out == before + Hits(cat.View(), q, page.Records())
  {
    hide Hits, Dense;
    out := before;
    ghost var rs, c := page.Records(), cat.View();
    HitsNone(c, q);
    for i := 0 to |page.times|
      invariant Known(c, rs[..i]) && out == before + Hits(c, q, rs[..i])
    {
      assert rs[..i + 1] == rs[..i] + [rs[i]];
      HitsAppend(c, q, rs[..i], [rs[i]]);
      HitsOne(c, q, rs[i]);
      IdMatches(c, q, id, rs[i]);
      var ts := page.times[i];
      if q.from <= ts <= q.to && (id.None? || page.eventIDs[i] == id.value) {
        var rec := Record(page.eventIDs[i], ts, page.valueTypes[i], page.valuesRaw[i], page.payloads[i]);
        out := out + [Hit(cat.idToName[rec.id], rec)];
      }
    }
    assert rs[..|rs|] == rs;
  }

  lemma IdMatches(c: Catalog, q: Query, id: Option<nat>, r: Record)
    requires Dense(c) && IdFor(c, q, id) && r.id in c.names
    ensures Matches(c, q, r) <==> q.from <= r.ts <= q.to && (id.None? || r.id == id.value)
  {
  }

  // ---------------------------------------------------------------- one file

  ghost predicate AllTyped(c: Catalog, pages: seq<seq<Record>>) {
    forall i :: 0 <= i < |pages| ==> Typed(c, pages[i])
  }

  lemma {:induction false} FlatKnown(c: Catalog, pages: seq<seq<Record>>)
    requires AllTyped(c, pages)
    ensures Known(c, Flatten(pages))
  {
    if pages != [] {
      TypedIsKnown(c, pages[0]);
      FlatKnown(c, pages[1..]);
    }
  }

  /** The hits of the pages at the given indices, one after another. */
  ghost function HitsAt(c: Catalog, q: Query, pages: seq<seq<Record>>, idx: seq<nat>): (hs: seq<Hit>)
    requires AllTyped(c, pages) && forall j :: 0 <= j < |idx| ==> idx[j] < |pages|
  {
    if idx == [] then []
    else
      var page := pages[idx[|idx| - 1]];
      TypedIsKnown(c, page);
      HitsAt(c, q, pages, idx[..|idx| - 1]) + Hits(c, q, page)
  }

  /** The candidate pages chosen among the first k carry all hits of the first k. */
  ghost predicate Covers(c: Catalog, q: Query, pages: seq<seq<Record>>, k: nat, idx: seq<nat>) {
    && k <= |pages| && AllTyped(c, pages)
    && (forall j :: 0 <= j < |idx| ==> idx[j] < |pages|)
    && Known(c, Flatten(pages[..k]))
    && HitsAt(c, q, pages, idx) == Hits(c, q, Flatten(pages[..k]))
  }

  /** Whether page k is picked or pruned, the candidates go on covering. */
  lemma CoversNext(c: Catalog, q: Query, id: Option<nat>, pages: seq<seq<Record>>, k: nat, idx: seq<nat>, compressedLen: nat)
    requires Covers(c, q, pages, k, idx) && k < |pages| && pages[k] != [] && Dense(c) && IdFor(c, q, id)
    ensures var picked := MayMatch(HeaderOf(pages[k], compressedLen), q, id);
            Covers(c, q, pages, k + 1, if picked then idx + [k] else idx)
  {
    hide Hits, Dense, IdFor;
    assert pages[..k + 1] == pages[..k] + [pages[k]];
    FlattenSnoc(pages[..k], pages[k]);
    TypedIsKnown(c, pages[k]);
    HitsAppend(c, q, Flatten(pages[..k]), pages[k]);
    if MayMatch(HeaderOf(pages[k], compressedLen), q, id) {
      assert (idx + [k])[..|idx|] == idx;
    } else {
      PrunedHasNoMatch(c, q, id, pages[k], compressedLen);
      NoneIsNoHit(c, q, pages[k]);
    }
  }

  lemma NoneIsNoHit(c: Catalog, q: Query, rs: seq<Record>)
    requires Known(c, rs) && Select(c, q, rs) == []
    ensures Hits(c, q, rs) == []
  {
  }

  lemma CoversNone(c: Catalog, q: Query, pages: seq<seq<Record>>)
    requires AllTyped(c, pages)
    ensures Covers(c, q, pages, 0, [])
  {
    assert pages[..0] == [];
  }

  ghost predicate OffsetsOf(codec: Codec, pages: seq<seq<Record>>, idx: seq<nat>, offsets: seq<nat>) {
    && |offsets| == |idx|
    && (forall j :: 0 <= j < |idx| ==>
          idx[j] < |pages| && pages[idx[j]] != [] && offsets[j] == InfoOf(codec, pages, idx[j]).offset)
  }

  /** Walks the headers of a file and keeps the offsets of the frames that may match. */
  method Candidates(codec: Codec, blob: bytes, q: Query, id: Option<nat>, ghost c: Catalog, ghost pages: seq<seq<Record>>)
    returns (offsets: seq<nat>, ghost idx: seq<nat>)
    requires AllWritable(codec, pages) && blob == FileBytes(codec, pages)
    requires AllTyped(c, pages) && Dense(c) && IdFor(c, q, id)
    ensures OffsetsOf(codec, pages, idx, offsets) && Covers(c, q, pages, |pages|, idx)
  {
    hide Covers, Dense, IdFor, AllTyped, MayMatch, Walk, StatsOf, FileBytes, HeaderOf, Compressed;
    WalkOfFile(codec, pages);
    var scanned := WalkEventsFileHeaders(blob);
    var infos := scanned.value.0;
    offsets, idx := [], [];
    CoversNone(c, q, pages);
    for k := 0 to |infos|
      invariant |infos| == |pages| && Covers(c, q, pages, k, idx)
      invariant OffsetsOf(codec, pages, idx, offsets)
    {
      assert infos[k] == InfoOf(codec, pages, k);
      CoversNext(c, q, id, pages, k, idx, |Compressed(codec, pages[k])|);
      if MayMatch(infos[k].header, q, id) {
        offsets := offsets + [infos[k].offset];
        idx := idx + [k];
      }
    }
  }

  lemma CoversGives(c: Catalog, q: Query, pages: seq<seq<Record>>, idx: seq<nat>)
    requires Covers(c, q, pages, |pages|, idx)
    ensures AllTyped(c, pages) && Known(c, Flatten(pages))
    ensures forall j :: 0 <= j < |idx| ==> idx[j] < |pages|
    ensures HitsAt(c, q, pages, idx) == Hits(c, q, Flatten(pages))
  {
    assert pages[..|pages|] == pages;
  }

  lemma HitsAtNext(c: Catalog, q: Query, pages: seq<seq<Record>>, idx: seq<nat>, j: nat)
    requires AllTyped(c, pages) && j < |idx| && forall i :: 0 <= i < |idx| ==> idx[i] < |pages|
    ensures Typed(c, pages[idx[j]]) && Known(c, pages[idx[j]])
    ensures HitsAt(c, q, pages, idx[..j + 1]) == HitsAt(c, q, pages, idx[..j]) + Hits(c, q, pages[idx[j]])
  {
    assert idx[..j + 1][..j] == idx[..j];
    TypedIsKnown(c, pages[idx[j]]);
  }

  /** The hits of one partition file. */
  method FileHits(codec: Codec, blob: bytes, cat: EventCatalog, q: Query, id: Option<nat>, before: seq<Hit>,
                  ghost pages: seq<seq<Record>>)
    returns (out: seq<Hit>)
    requires codec.Lossless() && AllWritable(codec, pages) && blob == FileBytes(codec, pages)
    requires AllTyped(cat.View(), pages) && Dense(cat.View()) && IdFor(cat.View(), q, id)
    ensures Known(cat.View(), Flatten(pages)) && out == before + Hits(cat.View(), q, Flatten(pages))
  {
    hide Covers, Dense, IdFor, AllTyped, FileBytes, Hits, Collect, Known, Typed, HitsAt;
    ghost var c := cat.View();
    var offsets, idx := Candidates(codec, blob, q, id, c, pages);
    CoversGives(c, q, pages, idx);
    out := CollectHits(codec, blob, cat, q, id, before, offsets, pages, idx);
  }

  /** Decodes the candidate frames one after another. */
  method CollectHits(codec: Codec, blob: bytes, cat: EventCatalog, q: Query, id: Option<nat>, before: seq<Hit>,
                     offsets: seq<nat>, ghost pages: seq<seq<Record>>, ghost idx: seq<nat>)
    returns (out: seq<Hit>)
    requires codec.Lossless() && AllWritable(codec, pages) && blob == FileBytes(codec, pages)
    requires AllTyped(cat.View(), pages) && Dense(cat.View()) && IdFor(cat.View(), q, id)
    requires OffsetsOf(codec, pages, idx, offsets)
    ensures out == before + HitsAt(cat.View(), q, pages, idx)
  {
    hide Dense, IdFor, AllTyped, FileBytes, Hits, Collect, Known, Typed, HitsAt, AllWritable;
    ghost var c := cat.View();
    out := before;
    HitsAtNone(c, q, pages);
    for j := 0 to |offsets|
      invariant out == before + HitsAt(c, q, pages, idx[..j])
    {
      HitsAtNext(c, q, pages, idx, j);
      CollectOfFile(codec, pages, idx[j], c);
      var page := CollectEventsFrame(codec, blob, offsets[j], cat);
      out := EmitMatching(cat, page.value, q, id, out);
    }
    assert idx[..|idx|] == idx;
  }

  lemma HitsAtNone(c: Catalog, q: Query, pages: seq<seq<Record>>)
    requires AllTyped(c, pages)
    ensures HitsAt(c, q, pages, []) == []
  {
  }

  // ---------------------------------------------------------------- the whole query

  datatype QueryError = InvalidRange

  /** out lists the hits of the first k partitions. */
  ghost predicate Listed(c: Catalog, q: Query, held: Part -> seq<Record>, ps: seq<Part>, k: nat, out: seq<Hit>)
    requires k <= |ps|
  {
    var rs := Gather(c, q, held, ps[..k]);
    Known(c, rs) && out == Named(c, rs)
  }

  lemma ListedNone(c: Catalog, q: Query, held: Part -> seq<Record>, ps: seq<Part>)
    ensures Listed(c, q, held, ps, 0, [])
  {
    assert ps[..0] == [];
  }

  lemma ListedNext(c: Catalog, q: Query, held: Part -> seq<Record>, ps: seq<Part>, k: nat, out: seq<Hit>)
    requires k < |ps| && Listed(c, q, held, ps, k, out) && Known(c, held(ps[k]))
    ensures Listed(c, q, held, ps, k + 1, out + Hits(c, q, held(ps[k])))
  {
    assert ps[..k + 1][..k] == ps[..k];
    SelectedKnown(c, q, held(ps[k]));
  }

  lemma {:induction false} NothingGathered(c: Catalog, q: Query, held: Part -> seq<Record>, ps: seq<Part>)
    requires forall r :: !Matches(c, q, r)
    ensures Gather(c, q, held, ps) == []
  {
    if ps != [] {
      NothingGathered(c, q, held, ps[..|ps| - 1]);
      NothingSelected(c, q, held(ps[|ps| - 1]));
    }
  }

  lemma UnknownNameMatchesNothing(at: Point, q: Query, sealed: seq<Part>, open: seq<Part>)
    requires Dense(at.mem.cat) && q.name != [] && q.name !in at.mem.cat.events
    ensures Answer(at, q, sealed, open) == [] && Known(at.mem.cat, []) && Named(at.mem.cat, []) == []
  {
    NothingGathered(at.mem.cat, q, InFiles(at.disk), sealed);
    NothingGathered(at.mem.cat, q, InPages(at.mem), open);
  }

  lemma StoredTyped(cfg: Config, at: Point)
    requires Inv(cfg, at)
    ensures Dense(at.mem.cat)
    ensures forall p :: p in at.disk.files ==> AllTyped(at.mem.cat, at.disk.files[p])
    ensures forall p :: p in at.mem.open ==> Known(at.mem.cat, at.mem.open[p])
  {
    hide DiskOk, Tracks, Typed, Known;
    forall p, i | p in at.disk.files && 0 <= i < |at.disk.files[p]| ensures Typed(at.mem.cat, at.disk.files[p][i]) {
      assert Belongs(cfg, at.mem.cat, p, at.disk.files[p][i]);
    }
    forall p | p in at.mem.open ensures Known(at.mem.cat, at.mem.open[p]) {
      assert Belongs(cfg, at.mem.cat, p, at.mem.open[p]);
      TypedIsKnown(at.mem.cat, at.mem.open[p]);
    }
  }

  method SealedHits(db: Database, q: Query, id: Option<nat>, sealed: seq<Part>) returns (out: seq<Hit>)
    requires db.Valid() && Inv(db.cfg, db.At()) && db.cfg.codec.Lossless()
    requires IdFor(db.cat.View(), q, id) && ListsAscending(sealed, db.files.Keys)
    ensures Listed(db.cat.View(), q, InFiles(db.Files()), sealed, |sealed|, out)
  {
    hide Dense, IdFor, AllTyped, FileBytes, Hits, Known, Typed, Listed, Inv, AllWritable;
    StoredTyped(db.cfg, db.At());
    ghost var c, held := db.cat.View(), InFiles(db.Files());
    out := [];
    ListedNone(c, q, held, sealed);
    for k := 0 to |sealed|
      invariant Listed(c, q, held, sealed, k, out)
    {
      var p := sealed[k];
      assert p in sealed;
      var more := FileHits(db.cfg.codec, db.files[p], db.cat, q, id, out, db.frames[p]);
      ListedNext(c, q, held, sealed, k, out);
      out := more;
    }
  }

  method OpenHits(db: Database, q: Query, id: Option<nat>, open: seq<Part>) returns (out: seq<Hit>)
    requires db.Valid() && Inv(db.cfg, db.At())
    requires IdFor(db.cat.View(), q, id) && ListsAscending(open, db.openEventsDays.Keys)
    ensures Listed(db.cat.View(), q, InPages(db.At().mem), open, |open|, out)
  {
    hide Dense, IdFor, Hits, Known, Typed, Listed, Inv, BitsOf, PayloadBytes, MinTs, MaxTs;
    StoredTyped(db.cfg, db.At());
    ghost var c, held := db.cat.View(), InPages(db.At().mem);
    out := [];
    ListedNone(c, q, held, open);
    for k := 0 to |open|
      invariant Listed(c, q, held, open, k, out)
    {
      var p := open[k];
      assert p in open;
      assert db.At().mem.open[p] == db.openEventsDays[p].Records();
      var more := EmitMatching(db.cat, db.openEventsDays[p], q, id, out);
      ListedNext(c, q, held, open, k, out);
      out := more;
    }
  }

  lemma ListedBoth(at: Point, q: Query, sealed: seq<Part>, open: seq<Part>, before: seq<Hit>, after: seq<Hit>)
    requires Listed(at.mem.cat, q, InFiles(at.disk), sealed, |sealed|, before)
    requires Listed(at.mem.cat, q, InPages(at.mem), open, |open|, after)
    ensures var answer := Answer(at, q, sealed, open);
            Known(at.mem.cat, answer) && before + after == Named(at.mem.cat, answer)
  {
    hide Gather;
    assert sealed[..|sealed|] == sealed && open[..|open|] == open;
  }

  /** QueryEvents: the stored matches of the sealed files, then those of the open pages, with their names. */
  method QueryEvents(db: Database, name: Name, from: Timestamp, to: Timestamp)
    returns (r: Result<seq<Hit>, QueryError>, ghost sealed: seq<Part>, ghost open: seq<Part>)
    requires db.Valid() && Inv(db.cfg, db.At()) && db.cfg.codec.Lossless()
    ensures to < from ==> r == Err(InvalidRange)
    ensures from <= to ==>
              && ListsAscending(sealed, db.files.Keys) && ListsAscending(open, db.openEventsDays.Keys)
              && var answer := Answer(db.At(), Query(Trim(name), from, to), sealed, open);
                 Known(db.cat.View(), answer) && r == Ok(Named(db.cat.View(), answer))
  {
    hide Dense, Inv, Answer, Listed, Named, Known, EventsDatabase.Database.FilesHold, Trim;
    if to < from { return Err(InvalidRange), [], []; }
    var q := Query(Trim(name), from, to);
    StoredTyped(db.cfg, db.At());
    var files := ListKeys(db.files.Keys);
    var pages := ListKeys(db.openEventsDays.Keys);
    sealed, open := files, pages;
    if q.name != [] && q.name !in db.cat.events {
      UnknownNameMatchesNothing(db.At(), q, sealed, open);
      return Ok([]), sealed, open;
    }
    var id := if q.name == [] then None else Some(db.cat.events[q.name].id);
    var before := SealedHits(db, q, id, files);
    var after := OpenHits(db, q, id, pages);
    ListedBoth(db.At(), q, files, pages, before, after);
    r := Ok(before + after);
  }
}
