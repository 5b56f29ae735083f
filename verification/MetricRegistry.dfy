/**
 The registry of metric names of one database and its catalog.json: how ids are given, what is saved, what loads, and
 what naming the records of a log does to it.
 */
module MetricRegistry {
  import opened Prelude
  import opened Bytes
  import opened Names

  const MAX_METRICS: int := 65535
  const INT32_SAMPLE: byte := 1
  const FLOAT32_SAMPLE: byte := 2

  predicate IsSampleType(t: byte) {
    t == INT32_SAMPLE || t == FLOAT32_SAMPLE
  }

  /** The names ingest lets through. */
  predicate IsMetricName(n: Name) {
    0 < |n| <= MAX_NAME_LEN && !IsBlank(n)
  }

  type SampleType = t: byte | IsSampleType(t) witness INT32_SAMPLE
  type MetricName = n: Name | IsMetricName(n) witness [65]

  datatype Metric = Metric(id: nat, valueType: byte, last: Option<Timestamp>)

  datatype Registry = Registry(metrics: map<Name, Metric>, names: map<nat, Name>, dirty: bool)

  const NO_METRICS: Registry := Registry(map[], map[], false)

  datatype MetricError =
    | Stale
    | AlreadySealed
    | TypeMismatch
    | TooManyMetrics
    | OutOfOrder
    | EmptyName
    | IdTaken
    | IdMismatch
    | UnknownId
    | BadType
    | BadId
    | DuplicateName
    | DuplicateId

  // ---------------------------------------------------------------- operations

  function Register(c: Registry, name: Name, id: nat, vt: byte): Registry {
    Registry(c.metrics[name := Metric(id, vt, None)], c.names[id := name], true)
  }

  /** GetMetricID. */
  function GetId(c: Registry, name: Name, vt: byte): (r: (Registry, Result<nat, MetricError>)) {
    if name in c.metrics then
      if c.metrics[name].valueType != vt then (c, Err(TypeMismatch)) else (c, Ok(c.metrics[name].id))
    else if |c.metrics| >= MAX_METRICS then (c, Err(TooManyMetrics))
    else (Register(c, name, |c.metrics| + 1, vt), Ok(|c.metrics| + 1))
  }

  /** EnsureMetricEntry. */
  function Ensure(c: Registry, name: Name, id: nat, vt: byte): (r: Result<Registry, MetricError>) {
    if IsBlank(name) then Err(EmptyName)
    else if id in c.names && c.names[id] != name then Err(IdTaken)
    else if name in c.metrics then
      if c.metrics[name].id != id then Err(IdMismatch)
      else if c.metrics[name].valueType != vt then Err(TypeMismatch)
      else Ok(c.(names := c.names[id := name]))
    else Ok(Register(c, name, id, vt))
  }

  /** UpdateLastByMetricID, for an id that has a name. */
  function NoteLast(c: Registry, id: nat, ts: Timestamp): (r: Registry) {
    if id !in c.names then c
    else
      var n := c.names[id];
      var m := if n in c.metrics then c.metrics[n] else Metric(0, 0, None);
      if m.last.None? || ts >= m.last.value then c.(metrics := c.metrics[n := m.(last := Some(ts))]) else c
  }

  // ---------------------------------------------------------------- catalog.json

  /** One entry of catalog.json. */
  datatype SavedMetric = SavedMetric(name: Name, id: nat, valueType: byte)

  /** The entries of the registry in name order, as they read once their names have been through JSON. */
  ghost function Listing(c: Registry): (es: seq<SavedMetric>)
    ensures |es| == |SortedNames(c.metrics.Keys)|
  {
    var ns := SortedNames(c.metrics.Keys);
    SortedNamesLists(c.metrics.Keys);
    seq(|ns|, i requires 0 <= i < |ns| => SavedAs(ns[i], c.metrics[ns[i]]))
  }

  function SavedAs(n: Name, m: Metric): SavedMetric {
    SavedMetric(Coerce(n), m.id, m.valueType)
  }

  /** One turn of the LoadCatalog loop. */
  function LoadEntry(c: Registry, e: SavedMetric): (r: Result<Registry, MetricError>) {
    if e.name == [] then Err(EmptyName)
    else if e.id == 0 then Err(BadId)
    else if !IsSampleType(e.valueType) then Err(BadType)
    else if e.name in c.metrics then Err(DuplicateName)
    else if e.id in c.names then Err(DuplicateId)
    else Ok(Register(c, e.name, e.id, e.valueType).(dirty := false))
  }

  /** LoadCatalog on the decoded entries of catalog.json. */
  function Load(es: seq<SavedMetric>): (r: Result<Registry, MetricError>) {
    if es == [] then Ok(NO_METRICS)
    else
      match Load(es[..|es| - 1])
      case Err(e) => Err(e)
      case Ok(c) => LoadEntry(c, es[|es| - 1])
  }

  // ---------------------------------------------------------------- pins

  /** A name, its id and its type. */
  datatype Pin = Pin(name: Name, id: nat, valueType: byte)

  function PinOf(c: Registry, n: Name): Pin
    requires n in c.metrics
  {
    Pin(n, c.metrics[n].id, c.metrics[n].valueType)
  }

  ghost function PinsOf(c: Registry): set<Pin> {
    set n | n in c.metrics :: PinOf(c, n)
  }

  ghost function SavedPins(es: seq<SavedMetric>): set<Pin> {
    set e | e in es :: Pin(e.name, e.id, e.valueType)
  }

  /** Every name has its id and every id its name. */
  ghost predicate Linked(c: Registry) {
    && (forall n :: n in c.metrics ==> c.metrics[n].id in c.names && c.names[c.metrics[n].id] == n)
    && (forall i :: i in c.names ==> c.names[i] in c.metrics && c.metrics[c.names[i]].id == i)
  }

  /** Names and ids are linked, and the ids in use are exactly 1..n. */
  ghost predicate Numbered(c: Registry) {
    Linked(c) && forall i :: i in c.names <==> 1 <= i <= |c.metrics|
  }

  /** No pin of s shares the name or the id of x without being x. */
  ghost predicate Fits(s: set<Pin>, x: Pin) {
    forall p :: p in s && (p.name == x.name || p.id == x.id) ==> p == x
  }

  /** No two pins share a name or an id. */
  ghost predicate Agree(s: set<Pin>) {
    forall p :: p in s ==> Fits(s, p)
  }

  /** Every id up to the largest is there, from 1. */
  ghost predicate GapFree(s: set<Pin>) {
    forall p :: p in s ==> p.id >= 1 && forall i :: 1 <= i <= p.id ==> HasId(s, i)
  }

  ghost predicate HasId(s: set<Pin>, i: nat) {
    exists p :: p in s && p.id == i
  }

  lemma PinsGive(c: Registry)
    requires Linked(c)
    ensures forall i :: i in c.names <==> HasId(PinsOf(c), i)
    ensures forall i :: i in c.names ==> PinOf(c, c.names[i]) in PinsOf(c)
    ensures Agree(PinsOf(c))
  {
    forall i ensures i in c.names <==> HasId(PinsOf(c), i) {
      if i in c.names {
        assert PinOf(c, c.names[i]) in PinsOf(c) && PinOf(c, c.names[i]).id == i;
      }
    }
  }

  /** Giving a new name an id that is free adds one pin. */
  lemma RegisterPins(c: Registry, name: Name, id: nat, vt: byte)
    requires Linked(c) && name !in c.metrics && id !in c.names
    ensures var d := Register(c, name, id, vt);
            Linked(d) && PinsOf(d) == PinsOf(c) + {Pin(name, id, vt)}
  {
    var d := Register(c, name, id, vt);
    forall p ensures p in PinsOf(d) <==> p in PinsOf(c) + {Pin(name, id, vt)} {
      if p in PinsOf(c) {
        assert p.name in d.metrics && PinOf(d, p.name) == p;
      }
      if p == Pin(name, id, vt) {
        assert PinOf(d, name) == p;
      }
    }
  }

  lemma SameMetricsPins(c: Registry, d: Registry)
    requires Linked(c) && c.metrics.Keys == d.metrics.Keys && c.names == d.names
    requires forall n :: n in c.metrics ==> PinOf(c, n) == PinOf(d, n)
    ensures Linked(d) && PinsOf(d) == PinsOf(c)
  {
    assert forall n :: n in c.metrics ==> PinOf(c, n) == PinOf(d, n) && d.metrics[n].id == c.metrics[n].id;
  }

  lemma NoteLastPins(c: Registry, id: nat, ts: Timestamp)
    requires Linked(c)
    ensures var d := NoteLast(c, id, ts);
            Linked(d) && PinsOf(d) == PinsOf(c) && d.dirty == c.dirty && d.metrics.Keys == c.metrics.Keys
  {
    SameMetricsPins(c, NoteLast(c, id, ts));
  }

  /** Registering the name of a log record succeeds exactly when it contradicts no pin, and then adds its pin. */
  lemma EnsureIff(c: Registry, name: Name, id: nat, vt: byte)
    requires Linked(c) && !IsBlank(name)
    ensures var r, x := Ensure(c, name, id, vt), Pin(name, id, vt);
            && (r.Ok? <==> Fits(PinsOf(c), x))
            && (r.Ok? ==> Linked(r.value) && PinsOf(r.value) == PinsOf(c) + {x})
            && (r.Ok? && !r.value.dirty ==> !c.dirty && x in PinsOf(c))
  {
    hide IsBlank;
    var x := Pin(name, id, vt);
    PinsGive(c);
    if name in c.metrics {
      assert PinOf(c, name) in PinsOf(c);
      if Ensure(c, name, id, vt).Ok? {
        assert c.names[id := name] == c.names;
        assert PinOf(c, name) == x;
        assert PinsOf(c) + {x} == PinsOf(c);
      }
    } else {
      assert forall p :: p in PinsOf(c) ==> p.name in c.metrics && c.names[p.id] == p.name;
      if id !in c.names {
        RegisterPins(c, name, id, vt);
      }
    }
  }

  // ---------------------------------------------------------------- what loads

  ghost predicate ValidEntry(e: SavedMetric) {
    e.name != [] && e.id != 0 && IsSampleType(e.valueType)
  }

  /** Every entry is valid, and no two share a name or an id. */
  ghost predicate Loadable(es: seq<SavedMetric>) {
    && (forall i :: 0 <= i < |es| ==> ValidEntry(es[i]))
    && (forall i, j :: 0 <= i < j < |es| ==> es[i].name != es[j].name && es[i].id != es[j].id)
  }

  lemma LoadableSnoc(es: seq<SavedMetric>, e: SavedMetric)
    ensures Loadable(es + [e]) <==>
              Loadable(es) && ValidEntry(e) && forall p :: p in SavedPins(es) ==> p.name != e.name && p.id != e.id
  {
    hide ValidEntry;
    var all := es + [e];
    assert forall i :: 0 <= i < |es| ==> all[i] == es[i];
    assert all[|es|] == e;
    if Loadable(all) {
      forall p | p in SavedPins(es) ensures p.name != e.name && p.id != e.id {
        var x :| x in es && p == Pin(x.name, x.id, x.valueType);
        var i :| 0 <= i < |es| && es[i] == x;
        assert all[i].name != all[|es|].name;
      }
    }
    if Loadable(es) && ValidEntry(e) && forall p :: p in SavedPins(es) ==> p.name != e.name && p.id != e.id {
      forall i, j | 0 <= i < j < |all| ensures all[i].name != all[j].name && all[i].id != all[j].id {
        if j == |es| {
          assert Pin(es[i].name, es[i].id, es[i].valueType) in SavedPins(es);
        }
      }
    }
  }

  lemma SavedPinsSnoc(es: seq<SavedMetric>, e: SavedMetric)
    ensures SavedPins(es + [e]) == SavedPins(es) + {Pin(e.name, e.id, e.valueType)}
  {
    assert forall x :: x in es + [e] <==> x in es || x == e;
  }

  lemma CleanPins(c: Registry)
    requires Linked(c)
    ensures Linked(c.(dirty := false)) && PinsOf(c.(dirty := false)) == PinsOf(c)
  {
    SameMetricsPins(c, c.(dirty := false));
  }

  lemma LoadEntryIff(c: Registry, e: SavedMetric)
    requires Linked(c) && !c.dirty
    ensures var r := LoadEntry(c, e);
            && (r.Ok? <==> ValidEntry(e) && forall p :: p in PinsOf(c) ==> p.name != e.name && p.id != e.id)
            && (r.Ok? ==> Linked(r.value) && !r.value.dirty && PinsOf(r.value) == PinsOf(c) + {Pin(e.name, e.id, e.valueType)})
  {
    PinsGive(c);
    assert e.name in c.metrics ==> PinOf(c, e.name) in PinsOf(c);
    if e.name !in c.metrics && e.id !in c.names {
      RegisterPins(c, e.name, e.id, e.valueType);
      CleanPins(Register(c, e.name, e.id, e.valueType));
    }
  }

  /** Exactly which files load; the registry then pins what the file lists. */
  lemma {:induction false} LoadsIff(es: seq<SavedMetric>)
    ensures Load(es).Ok? <==> Loadable(es)
    ensures Load(es).Ok? ==> Linked(Load(es).value) && !Load(es).value.dirty && PinsOf(Load(es).value) == SavedPins(es)
  {
    hide ValidEntry;
    if es == [] {
      assert PinsOf(NO_METRICS) == SavedPins([]);
    } else {
      hide Loadable, SavedPins, PinsOf, Linked;
      var init, e := es[..|es| - 1], es[|es| - 1];
      assert es == init + [e];
      LoadsIff(init);
      LoadableSnoc(init, e);
      SavedPinsSnoc(init, e);
      if Load(init).Ok? {
        LoadEntryIff(Load(init).value, e);
      }
    }
  }

  // ---------------------------------------------------------------- what is saved

  /** Every name of the registry is valid UTF-8, and no id is 0, no name is empty, and every type is a sample type. */
  ghost predicate Savable(c: Registry) {
    forall n :: n in c.metrics ==> n != [] && IsText(n) && c.metrics[n].id != 0 && IsSampleType(c.metrics[n].valueType)
  }

  lemma ListedAt(c: Registry, i: nat)
    requires i < |Listing(c)|
    ensures exists n :: n in c.metrics && n == SortedNames(c.metrics.Keys)[i] && Listing(c)[i] == SavedAs(n, c.metrics[n])
  {
    SortedNamesLists(c.metrics.Keys);
    var n := SortedNames(c.metrics.Keys)[i];
    assert n in c.metrics.Keys;
  }

  lemma Listed(c: Registry, n: Name)
    requires n in c.metrics
    ensures SavedAs(n, c.metrics[n]) in Listing(c)
  {
    SortedNamesLists(c.metrics.Keys);
    assert n in SortedNames(c.metrics.Keys);
    var i :| 0 <= i < |SortedNames(c.metrics.Keys)| && SortedNames(c.metrics.Keys)[i] == n;
    assert Listing(c)[i] == SavedAs(n, c.metrics[n]);
  }

  lemma ListingPins(c: Registry)
    requires Savable(c)
    ensures SavedPins(Listing(c)) == PinsOf(c)
  {
    hide Listing, Coerce, SortedNames, IsText;
    forall n | n in c.metrics ensures Coerce(n) == n {
      CoerceIsIdentityIff(n);
    }
    forall p ensures p in SavedPins(Listing(c)) <==> p in PinsOf(c) {
      if p in SavedPins(Listing(c)) {
        var e :| e in Listing(c) && p == Pin(e.name, e.id, e.valueType);
        var i :| 0 <= i < |Listing(c)| && Listing(c)[i] == e;
        ListedAt(c, i);
      }
      if p in PinsOf(c) {
        Listed(c, p.name);
      }
    }
  }

  lemma ListingLoads(c: Registry)
    requires Linked(c) && Savable(c)
    ensures Loadable(Listing(c))
  {
    hide Listing, Coerce, SortedNames, IsText;
    forall n | n in c.metrics ensures Coerce(n) == n {
      CoerceIsIdentityIff(n);
    }
    forall i | 0 <= i < |Listing(c)| ensures ValidEntry(Listing(c)[i]) {
      ListedAt(c, i);
    }
    forall i, j | 0 <= i < j < |Listing(c)|
      ensures Listing(c)[i].name != Listing(c)[j].name && Listing(c)[i].id != Listing(c)[j].id
    {
      ListedAt(c, i);
      ListedAt(c, j);
      SortedNamesLists(c.metrics.Keys);
      NoNameTwice(SortedNames(c.metrics.Keys));
      var m, n := SortedNames(c.metrics.Keys)[i], SortedNames(c.metrics.Keys)[j];
      assert m != n && c.names[c.metrics[m].id] == m;
    }
  }

  /** No name is empty, no id is 0, every type is a sample type. */
  ghost predicate Proper(c: Registry) {
    forall n :: n in c.metrics ==> n != [] && c.metrics[n].id != 0 && IsSampleType(c.metrics[n].valueType)
  }

  /** Distinct names stay distinct as text. */
  ghost predicate StaysApart(c: Registry) {
    forall m, n :: m in c.metrics && n in c.metrics && m != n ==> Coerce(m) != Coerce(n)
  }

  /** Every name of the registry is valid UTF-8. */
  ghost predicate InText(c: Registry) {
    forall n :: n in c.metrics ==> IsText(n)
  }

  lemma EntryProperIff(n: Name, m: Metric)
    ensures ValidEntry(SavedAs(n, m)) <==> n != [] && m.id != 0 && IsSampleType(m.valueType)
  {
    CoerceGrows(n);
    assert Coerce([]) == [];
  }

  lemma ListedIndex(c: Registry, n: Name) returns (i: nat)
    requires n in c.metrics
    ensures i < |Listing(c)| && Listing(c)[i] == SavedAs(n, c.metrics[n]) && SortedNames(c.metrics.Keys)[i] == n
  {
    SortedNamesLists(c.metrics.Keys);
    assert n in SortedNames(c.metrics.Keys);
    i :| 0 <= i < |SortedNames(c.metrics.Keys)| && SortedNames(c.metrics.Keys)[i] == n;
  }

  /** Exactly which saved registries load: those that are proper and whose names stay apart as text. */
  lemma SavedLoadsIff(c: Registry)
    requires Linked(c)
    ensures Load(Listing(c)).Ok? <==> Proper(c) && StaysApart(c)
  {
    hide Load, Listing, Coerce, SortedNames, ValidEntry;
    LoadsIff(Listing(c));
    if Loadable(Listing(c)) {
      ApartWhenLoadable(c);
    }
    if Proper(c) && StaysApart(c) {
      LoadableWhenApart(c);
    }
  }

  lemma ApartWhenLoadable(c: Registry)
    requires Loadable(Listing(c))
    ensures Proper(c) && StaysApart(c)
  {
    hide Listing, Coerce, SortedNames, ValidEntry;
    forall n | n in c.metrics ensures n != [] && c.metrics[n].id != 0 && IsSampleType(c.metrics[n].valueType) {
      var i := ListedIndex(c, n);
      assert ValidEntry(Listing(c)[i]);
      EntryProperIff(n, c.metrics[n]);
    }
    forall m, n | m in c.metrics && n in c.metrics && m != n ensures Coerce(m) != Coerce(n) {
      var i := ListedIndex(c, m);
      var j := ListedIndex(c, n);
      assert Listing(c)[i].name != Listing(c)[j].name;
    }
  }

  lemma LoadableWhenApart(c: Registry)
    requires Linked(c) && Proper(c) && StaysApart(c)
    ensures Loadable(Listing(c))
  {
    hide Listing, Coerce, SortedNames, ValidEntry;
    SortedNamesLists(c.metrics.Keys);
    NoNameTwice(SortedNames(c.metrics.Keys));
    forall i | 0 <= i < |Listing(c)| ensures ValidEntry(Listing(c)[i]) {
      ListedAt(c, i);
      EntryProperIff(SortedNames(c.metrics.Keys)[i], c.metrics[SortedNames(c.metrics.Keys)[i]]);
    }
    forall i, j | 0 <= i < j < |Listing(c)|
      ensures Listing(c)[i].name != Listing(c)[j].name && Listing(c)[i].id != Listing(c)[j].id
    {
      ListedAt(c, i);
      ListedAt(c, j);
      var m, n := SortedNames(c.metrics.Keys)[i], SortedNames(c.metrics.Keys)[j];
      assert m != n && c.names[c.metrics[m].id] == m;
    }
  }

  lemma PinnedAsText(c: Registry, n: Name)
    requires Linked(c) && SavedPins(Listing(c)) == PinsOf(c) && n in c.metrics
    ensures Coerce(n) == n
  {
    hide Listing, Coerce, SortedNames;
    assert PinOf(c, n) in PinsOf(c);
    var e :| e in Listing(c) && PinOf(c, n) == Pin(e.name, e.id, e.valueType);
    var i :| 0 <= i < |Listing(c)| && Listing(c)[i] == e;
    ListedAt(c, i);
  }

  /** Loading what was saved gives back exactly the pins of a registry if and only if every name is valid UTF-8. */
  lemma LoadInvertsListingIff(c: Registry)
    requires Linked(c) && Proper(c)
    ensures Load(Listing(c)).Ok? && PinsOf(Load(Listing(c)).value) == PinsOf(c) <==> InText(c)
  {
    hide Load, Listing, Coerce, SortedNames, PinsOf, SavedPins, IsText, Loadable;
    LoadsIff(Listing(c));
    if InText(c) {
      ListingLoads(c);
      ListingPins(c);
    }
    if Load(Listing(c)).Ok? && PinsOf(Load(Listing(c)).value) == PinsOf(c) {
      forall n | n in c.metrics ensures IsText(n) {
        PinnedAsText(c, n);
        CoerceIsIdentityIff(n);
      }
    }
  }

  // ---------------------------------------------------------------- gaps

  lemma {:induction false} LinkedSizes(c: Registry)
    requires Linked(c)
    ensures |c.names| == |c.metrics|
    decreases |c.metrics|
  {
    if c.metrics.Keys == {} {
      assert c.metrics == map[] && c.names.Keys == {};
      assert |c.names| == |c.names.Keys|;
    } else {
      SomeName(c.metrics.Keys);
      var n :| n in c.metrics.Keys;
      var id := c.metrics[n].id;
      var rest := Registry(c.metrics - {n}, c.names - {id}, false);
      assert c.metrics.Keys == rest.metrics.Keys + {n} && c.names.Keys == rest.names.Keys + {id};
      assert |c.metrics| == |c.metrics.Keys| && |c.names| == |c.names.Keys|;
      assert |rest.metrics| == |rest.metrics.Keys| && |rest.names| == |rest.names.Keys|;
      LinkedSizes(rest);
    }
  }

  /** The ids of a linked registry are 1..n exactly when none up to the largest is missing. */
  lemma NumberedIffGapFree(c: Registry)
    requires Linked(c)
    ensures Numbered(c) <==> GapFree(PinsOf(c))
  {
    PinsGive(c);
    LinkedSizes(c);
    hide Linked;
    var n := |c.metrics|;
    assert |c.names.Keys| == n;
    if GapFree(PinsOf(c)) {
      forall k | k in c.names ensures 1 <= k <= n {
        var p :| p in PinsOf(c) && p.id == k;
        assert forall i :: 1 <= i <= k ==> HasId(PinsOf(c), i);
        assert Upto(k) <= c.names.Keys;
        SubsetSize(Upto(k), c.names.Keys);
      }
      assert c.names.Keys <= Upto(n);
      SubsetSize(c.names.Keys, Upto(n));
      assert forall i: int :: i in Upto(n) <==> 1 <= i <= n;
    }
    if Numbered(c) {
      forall p | p in PinsOf(c) ensures p.id >= 1 && forall i :: 1 <= i <= p.id ==> HasId(PinsOf(c), i) {
        assert HasId(PinsOf(c), p.id);
      }
    }
  }

  /** The registry after giving ids to the names ns, one after the other. */
  function RegisterAll(c: Registry, ns: seq<Name>, vt: byte): Registry {
    if ns == [] then c else GetId(RegisterAll(c, ns[..|ns| - 1], vt), ns[|ns| - 1], vt).0
  }

  /** Distinct names that the registry does not have. */
  ghost predicate AllNew(c: Registry, ns: seq<Name>) {
    (forall i, j :: 0 <= i < j < |ns| ==> ns[i] != ns[j]) && forall n :: n in ns ==> n !in c.metrics
  }

  lemma RegisterOne(c: Registry, n: Name, vt: byte)
    requires n !in c.metrics && |c.metrics| < MAX_METRICS
    ensures var d := GetId(c, n, vt).0;
            && GetId(c, n, vt).1 == Ok(|c.metrics| + 1)
            && d.metrics.Keys == c.metrics.Keys + {n} && |d.metrics| == |c.metrics| + 1 && c.names.Keys <= d.names.Keys
  {
    MapGrows(c.metrics, n, Metric(|c.metrics| + 1, vt, None));
  }

  function NamesIn(ns: seq<Name>): set<Name> {
    set n | n in ns
  }

  lemma NextName(c: Registry, ns: seq<Name>, k: nat)
    requires k < |ns| && AllNew(c, ns)
    ensures ns[k] !in c.metrics.Keys && ns[k] !in NamesIn(ns[..k])
    ensures ns[..k + 1][..k] == ns[..k] && NamesIn(ns[..k + 1]) == NamesIn(ns[..k]) + {ns[k]}
  {
    assert ns[k] in ns && ns[..k + 1] == ns[..k] + [ns[k]];
  }

  /** d has what c has, and k more metrics named by s. */
  ghost predicate Grown(c: Registry, d: Registry, s: set<Name>, k: nat) {
    d.metrics.Keys == c.metrics.Keys + s && |d.metrics| == |c.metrics| + k && c.names.Keys <= d.names.Keys
  }

  lemma GrowNone(c: Registry, ns: seq<Name>, vt: byte)
    ensures Grown(c, RegisterAll(c, ns[..0], vt), NamesIn(ns[..0]), 0)
  {
    assert ns[..0] == [] && NamesIn([]) == {};
  }

  lemma GrowOne(c: Registry, d: Registry, s: set<Name>, k: nat, n: Name, vt: byte)
    requires Grown(c, d, s, k) && n !in c.metrics.Keys && n !in s && |c.metrics| + k < MAX_METRICS
    ensures Grown(c, GetId(d, n, vt).0, s + {n}, k + 1)
  {
    hide GetId;
    RegisterOne(d, n, vt);
  }

  lemma RegisterLast(c: Registry, ns: seq<Name>, vt: byte, k: nat)
    requires k < |ns|
    ensures RegisterAll(c, ns[..k + 1], vt) == GetId(RegisterAll(c, ns[..k], vt), ns[k], vt).0
  {
    assert ns[..k + 1][..k] == ns[..k];
  }

  lemma {:induction false} RegisterAllGrows(c: Registry, ns: seq<Name>, vt: byte, k: nat)
    requires k <= |ns| && AllNew(c, ns) && |c.metrics| + |ns| <= MAX_METRICS
    ensures Grown(c, RegisterAll(c, ns[..k], vt), NamesIn(ns[..k]), k)
  {
    hide *;
    if k == 0 {
      GrowNone(c, ns, vt);
    } else {
      RegisterAllGrows(c, ns, vt, k - 1);
      RegisterLast(c, ns, vt, k - 1);
      NextName(c, ns, k - 1);
      GrowOne(c, RegisterAll(c, ns[..k - 1], vt), NamesIn(ns[..k - 1]), k - 1, ns[k - 1], vt);
    }
  }

  lemma AllWithinSize(c: Registry)
    requires Linked(c) && forall i :: i in c.names ==> 1 <= i <= |c.metrics|
    ensures Numbered(c)
  {
    var n := |c.metrics|;
    LinkedSizes(c);
    hide Linked;
    assert |c.names.Keys| == n;
    assert c.names.Keys <= Upto(n);
    SubsetSize(c.names.Keys, Upto(n));
  }

  lemma IdBeyondSize(c: Registry) returns (id: nat)
    requires Linked(c) && !Numbered(c) && forall i :: i in c.names ==> i >= 1
    ensures id in c.names && id > |c.metrics|
  {
    hide Linked, Numbered;
    if forall i :: i in c.names ==> i <= |c.metrics| {
      AllWithinSize(c);
      assert false;
    }
    id :| id in c.names && id > |c.metrics|;
  }

  /**
   With a gap in the ids, giving ids to enough new names, whatever they are, comes to an id that already has a name:
   two metrics then share it.
   */
  lemma GapCollides(c: Registry, ns: seq<Name>, vt: byte) returns (k: nat)
    requires Linked(c) && !Numbered(c) && forall i :: i in c.names ==> 1 <= i <= MAX_METRICS
    requires AllNew(c, ns) && |c.metrics| + |ns| == MAX_METRICS
    ensures k < |ns|
    ensures var d := RegisterAll(c, ns[..k], vt);
            GetId(d, ns[k], vt).1.Ok? && GetId(d, ns[k], vt).1.value in d.names
  {
    var id := IdBeyondSize(c);
    hide Linked, Numbered, GetId, RegisterAll;
    k := id - |c.metrics| - 1;
    RegisterAllGrows(c, ns, vt, k);
    NextName(c, ns, k);
    RegisterOne(RegisterAll(c, ns[..k], vt), ns[k], vt);
  }
}
