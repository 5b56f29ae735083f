/**
 The registry of event names of one database, and its events.json snapshot.

 The value-level functions say what each operation does to the registry; class EventCatalog is the
 registry the engine updates in place, each method proved against its function.
 */
module EventsCatalog {
  import opened Prelude
  import opened Bytes
  import opened Names

  const MAX_EVENTS: int := 1023

  const VALUE_NONE: byte := 0
  const INT32_SAMPLE: byte := 1
  const FLOAT32_SAMPLE: byte := 2

  predicate ValidType(v: int) {
    v == VALUE_NONE || v == INT32_SAMPLE || v == FLOAT32_SAMPLE
  }

  // ---------------------------------------------------------------- names

  /** The names ingest lets through: not blank, at most 255 bytes. */
  predicate ValidName(n: Name) {
    0 < |n| <= MAX_NAME_LEN && !IsBlank(n)
  }

  lemma TrimmedIsValid(s: Name)
    requires Trim(s) != [] && |Trim(s)| <= MAX_NAME_LEN
    ensures ValidName(Trim(s))
  {
    BlankIff(s);
  }

  // ---------------------------------------------------------------- the registry as a value

  datatype Entry = Entry(id: nat, valueType: byte, last: Option<Timestamp>)

  datatype Catalog = Catalog(events: map<Name, Entry>, names: map<nat, Name>, dirty: bool)

  const EMPTY: Catalog := Catalog(map[], map[], false)

  datatype CatalogError =
    | NameEmpty
    | NameTooLong
    | BadValueType
    | TypeMismatch
    | TooManyEvents
    | IdOutOfRange
    | IdTaken
    | IdMismatch
    | IdNotFound
    | DuplicateName
    | DuplicateId

  /** GetOrAssignEventID. */
  function Assign(c: Catalog, name: Name, vt: byte): (r: (Catalog, Result<nat, CatalogError>)) {
    if name == [] then (c, Err(NameEmpty))
    else if |name| > MAX_NAME_LEN then (c, Err(NameTooLong))
    else if !ValidType(vt) then (c, Err(BadValueType))
    else if name in c.events then
      if c.events[name].valueType != vt then (c, Err(TypeMismatch)) else (c, Ok(c.events[name].id))
    else if |c.events| >= MAX_EVENTS then (c, Err(TooManyEvents))
    else
      var id := |c.events| + 1;
      (Catalog(c.events[name := Entry(id, vt, None)], c.names[id := name], true), Ok(id))
  }

  /** EnsureEventEntry. */
  function Ensure(c: Catalog, name: Name, id: nat, vt: byte): (r: Result<Catalog, CatalogError>) {
    if IsBlank(name) then Err(NameEmpty)
    else if |name| > MAX_NAME_LEN then Err(NameTooLong)
    else if id == 0 || id > MAX_EVENTS then Err(IdOutOfRange)
    else if !ValidType(vt) then Err(BadValueType)
    else if id in c.names && c.names[id] != name then Err(IdTaken)
    else if name in c.events then
      if c.events[name].id != id then Err(IdMismatch)
      else if c.events[name].valueType != vt then Err(TypeMismatch)
      else Ok(c.(names := c.names[id := name]))
    else if |c.events| >= MAX_EVENTS then Err(TooManyEvents)
    else Ok(Catalog(c.events[name := Entry(id, vt, None)], c.names[id := name], true))
  }

  /** The value type pinned for an id; an id whose name has no entry reads as the zero entry. */
  function TypeOf(c: Catalog, id: nat): (r: Option<byte>) {
    if id !in c.names then None
    else if c.names[id] in c.events then Some(c.events[c.names[id]].valueType)
    else Some(VALUE_NONE)
  }

  /** UpdateLastByEventID. */
  function UpdateLast(c: Catalog, id: nat, ts: Timestamp): (r: Result<Catalog, CatalogError>) {
    if id !in c.names then Err(IdNotFound)
    else
      var n := c.names[id];
      var e := if n in c.events then c.events[n] else Entry(0, VALUE_NONE, None);
      if e.last.None? || ts >= e.last.value then Ok(c.(events := c.events[n := e.(last := Some(ts))]))
      else Ok(c)
  }

  /** LastTS. */
  function LastTs(c: Catalog, id: nat): (r: Option<Timestamp>) {
    if id in c.names && c.names[id] in c.events then c.events[c.names[id]].last else None
  }

  /** Names and ids are in bijection, and the ids in use are exactly 1..n. */
  ghost predicate Dense(c: Catalog) {
    && |c.events| <= MAX_EVENTS
    && (forall n :: n in c.events ==>
          ValidName(n) && ValidType(c.events[n].valueType)
          && c.events[n].id in c.names && c.names[c.events[n].id] == n)
    && (forall i :: i in c.names ==> c.names[i] in c.events && c.events[c.names[i]].id == i)
    && (forall i :: i in c.names <==> 1 <= i <= |c.events|)
  }

  /** Both registries pin the same names to the same ids and types. */
  ghost predicate SamePins(c: Catalog, d: Catalog) {
    && c.names == d.names
    && c.events.Keys == d.events.Keys
    && (forall n :: n in c.events ==> c.events[n].id == d.events[n].id && c.events[n].valueType == d.events[n].valueType)
  }

  /** d pins everything c pins, the same way. */
  ghost predicate Extends(c: Catalog, d: Catalog) {
    && (forall i :: i in c.names ==> i in d.names && d.names[i] == c.names[i])
    && (forall n :: n in c.events ==>
          n in d.events && c.events[n].id == d.events[n].id && c.events[n].valueType == d.events[n].valueType)
  }

  lemma ExtendsTransitive(a: Catalog, b: Catalog, c: Catalog)
    requires Extends(a, b) && Extends(b, c)
    ensures Extends(a, c)
  {
  }

  /** Pinning a fresh name to the next free id keeps the registry dense and moves nothing. */
  lemma PinNext(c: Catalog, name: Name, vt: byte)
    requires Dense(c) && ValidName(name) && name !in c.events && ValidType(vt) && |c.events| < MAX_EVENTS
    ensures var id := |c.events| + 1;
            var d := Catalog(c.events[name := Entry(id, vt, None)], c.names[id := name], true);
            Dense(d) && Extends(c, d) && TypeOf(d, id) == Some(vt) && d.names[id] == name
  {
    hide ValidName, ValidType;
    var id := |c.events| + 1;
    var d := Catalog(c.events[name := Entry(id, vt, None)], c.names[id := name], true);
    assert id !in c.names;
    assert |d.events| == |c.events| + 1;
  }

  /** Assignment keeps the registry dense and never moves an existing name. */
  lemma AssignKeepsDense(c: Catalog, name: Name, vt: byte)
    requires Dense(c) && (ValidName(name) || name == [] || |name| > MAX_NAME_LEN)
    ensures Dense(Assign(c, name, vt).0) && Extends(c, Assign(c, name, vt).0)
    ensures Assign(c, name, vt).1.Ok? ==>
              var id := Assign(c, name, vt).1.value;
              TypeOf(Assign(c, name, vt).0, id) == Some(vt) && id in Assign(c, name, vt).0.names
              && Assign(c, name, vt).0.names[id] == name
    ensures Assign(c, name, vt).1.Err? ==> Assign(c, name, vt).0 == c
  {
    hide ValidName;
    if name != [] && |name| <= MAX_NAME_LEN && ValidType(vt) && name !in c.events && |c.events| < MAX_EVENTS {
      PinNext(c, name, vt);
    }
  }

  /** On an entry already pinned this way, replaying its registration changes nothing. */
  lemma EnsurePinned(c: Catalog, name: Name, id: nat, vt: byte)
    requires Dense(c) && name in c.events && c.events[name].id == id && c.events[name].valueType == vt
    ensures Ensure(c, name, id, vt) == Ok(c)
  {
    assert c.names[id := name] == c.names;
  }

  /** Registering the next free id from a log record does what live assignment did. */
  lemma EnsureNextIsAssign(c: Catalog, name: Name, vt: byte)
    requires Dense(c) && ValidName(name) && name !in c.events && Assign(c, name, vt).1.Ok?
    ensures Ensure(c, name, Assign(c, name, vt).1.value, vt) == Ok(Assign(c, name, vt).0)
  {
  }

  lemma UpdateLastKeepsPins(c: Catalog, id: nat, ts: Timestamp)
    requires Dense(c) && id in c.names
    ensures UpdateLast(c, id, ts).Ok?
    ensures SamePins(c, UpdateLast(c, id, ts).value) && Dense(UpdateLast(c, id, ts).value)
    ensures UpdateLast(c, id, ts).value.dirty == c.dirty
    ensures LastTs(UpdateLast(c, id, ts).value, id).Some? && LastTs(UpdateLast(c, id, ts).value, id).value >= ts
    ensures forall j :: j != id ==> LastTs(UpdateLast(c, id, ts).value, j) == LastTs(c, j)
  {
    var d := UpdateLast(c, id, ts).value;
    assert d.events.Keys == c.events.Keys;
  }

  lemma DenseSamePins(c: Catalog, d: Catalog)
    requires Dense(c) && SamePins(c, d)
    ensures Dense(d)
  {
    assert |c.events.Keys| == |d.events.Keys|;
  }

  // ---------------------------------------------------------------- events.json

  /** The value_type strings of events.json: "", "none", "int32", "float32" and anything else. */
  datatype TypeWord = EmptyWord | NoneWord | Int32Word | Float32Word | OtherWord

  datatype DiskEntry = DiskEntry(name: Name, id: nat, valueType: TypeWord)

  function TypeName(v: byte): (w: TypeWord) {
    if v == VALUE_NONE then NoneWord else if v == INT32_SAMPLE then Int32Word
    else if v == FLOAT32_SAMPLE then Float32Word else OtherWord
  }

  function ParseTypeName(w: TypeWord): (r: Option<byte>) {
    match w
    case EmptyWord => Some(VALUE_NONE)
    case NoneWord => Some(VALUE_NONE)
    case Int32Word => Some(INT32_SAMPLE)
    case Float32Word => Some(FLOAT32_SAMPLE)
    case OtherWord => None
  }

  /** One entry of events.json, validated against what is loaded so far. */
  function LoadEntry(c: Catalog, e: DiskEntry): (r: Result<Catalog, CatalogError>) {
    if e.name == [] then Err(NameEmpty)
    else if e.id == 0 || e.id > MAX_EVENTS then Err(IdOutOfRange)
    else if |e.name| > MAX_NAME_LEN then Err(NameTooLong)
    else if ParseTypeName(e.valueType).None? then Err(BadValueType)
    else if e.name in c.events then Err(DuplicateName)
    else if e.id in c.names then Err(DuplicateId)
    else Ok(Catalog(c.events[e.name := Entry(e.id, ParseTypeName(e.valueType).value, None)], c.names[e.id := e.name], false))
  }

  function LoadAll(es: seq<DiskEntry>): (r: Result<Catalog, CatalogError>) {
    if es == [] then Ok(EMPTY)
    else
      match LoadAll(es[..|es| - 1])
      case Err(e) => Err(e)
      case Ok(c) => LoadEntry(c, es[|es| - 1])
  }

  /** LoadEventCatalog on the decoded contents of events.json. */
  function Load(es: seq<DiskEntry>): (r: Result<Catalog, CatalogError>) {
    match LoadAll(es)
    case Err(e) => Err(e)
    case Ok(c) => if |c.events| > MAX_EVENTS then Err(TooManyEvents) else Ok(c)
  }

  function DiskEntryOf(n: Name, e: Entry): DiskEntry {
    DiskEntry(n, e.id, TypeName(e.valueType))
  }

  /** catalogEntriesLocked: the entries of the registry in name order. */
  ghost function Entries(c: Catalog): (es: seq<DiskEntry>)
    ensures |es| == |SortedNames(c.events.Keys)|
  {
    var ns := SortedNames(c.events.Keys);
    SortedNamesLists(c.events.Keys);
    seq(|ns|, i requires 0 <= i < |ns| => DiskEntryOf(ns[i], c.events[ns[i]]))
  }

  /** Entries as they read once they are in the file: their names have been through JSON. */
  function AsRead(es: seq<DiskEntry>): (rs: seq<DiskEntry>)
    ensures |rs| == |es|
  {
    seq(|es|, i requires 0 <= i < |es| => es[i].(name := Coerce(es[i].name)))
  }

  /** What saving the registry leaves in events.json. */
  ghost function Snapshot(c: Catalog): (es: seq<DiskEntry>) {
    AsRead(Entries(c))
  }

  ghost predicate SortedByName(es: seq<DiskEntry>) {
    forall i, j :: 0 <= i < j < |es| ==> NameLess(es[i].name, es[j].name)
  }

  /** es lists exactly the pins of c, in name order. */
  ghost predicate IsListing(c: Catalog, es: seq<DiskEntry>) {
    && SortedByName(es)
    && (forall i :: 0 <= i < |es| ==> es[i].name in c.events && es[i] == DiskEntryOf(es[i].name, c.events[es[i].name]))
    && (forall n :: n in c.events ==> exists i :: 0 <= i < |es| && es[i].name == n)
  }

  function NamesOf(es: seq<DiskEntry>): (ns: seq<Name>)
    ensures |ns| == |es|
  {
    seq(|es|, i requires 0 <= i < |es| => es[i].name)
  }

  lemma EntriesList(c: Catalog)
    ensures IsListing(c, Entries(c)) && NamesOf(Entries(c)) == SortedNames(c.events.Keys)
    ensures forall n :: n in SortedNames(c.events.Keys) <==> n in c.events
    ensures forall i, j :: 0 <= i < j < |Entries(c)| ==> Entries(c)[i].name != Entries(c)[j].name
  {
    hide NameLess, TypeName;
    var ns := SortedNames(c.events.Keys);
    SortedNamesLists(c.events.Keys);
    NoNameTwice(ns);
    hide SortedNames;
    forall n | n in c.events ensures exists i :: 0 <= i < |ns| && Entries(c)[i].name == n {
      assert n in ns;
      var i :| 0 <= i < |ns| && ns[i] == n;
      assert Entries(c)[i].name == n;
    }
  }

  /** The listing is a function of the registry: any listing of its entries in name order is the one that is written. */
  lemma ListingIsUnique(c: Catalog, es: seq<DiskEntry>)
    ensures IsListing(c, es) <==> es == Entries(c)
  {
    EntriesList(c);
    if IsListing(c, es) {
      var ns := NamesOf(es);
      forall n ensures n in ns <==> n in c.events {
        if n in c.events {
          var i :| 0 <= i < |es| && es[i].name == n;
          assert ns[i] == n;
        }
      }
      ListIsUnique(c.events.Keys, ns);
      forall i | 0 <= i < |es| ensures es[i] == Entries(c)[i] {
        assert ns[i] == SortedNames(c.events.Keys)[i];
      }
    }
  }

  // ---------------------------------------------------------------- which files load

  ghost predicate ValidEntry(e: DiskEntry) {
    e.name != [] && |e.name| <= MAX_NAME_LEN && 1 <= e.id <= MAX_EVENTS && ParseTypeName(e.valueType).Some?
  }

  /** Every entry is valid, and no two share a name or an id. */
  ghost predicate Loadable(es: seq<DiskEntry>) {
    && (forall i :: 0 <= i < |es| ==> ValidEntry(es[i]))
    && (forall i, j :: 0 <= i < j < |es| ==> es[i].name != es[j].name && es[i].id != es[j].id)
  }

  function NameSet(es: seq<DiskEntry>): set<Name> { set e | e in es :: e.name }

  function IdSet(es: seq<DiskEntry>): set<nat> { set e | e in es :: e.id }

  /** d pins the entry's name to its id and type. */
  ghost predicate Pinned(d: Catalog, e: DiskEntry) {
    && e.name in d.events && e.id in d.names && d.names[e.id] == e.name
    && ParseTypeName(e.valueType).Some?
    && d.events[e.name] == Entry(e.id, ParseTypeName(e.valueType).value, None)
  }

  /** d holds exactly the entries es. */
  ghost predicate Holds(es: seq<DiskEntry>, d: Catalog) {
    && !d.dirty && |d.names| == |es| == |d.events|
    && (forall e :: e in es ==> Pinned(d, e))
    && d.events.Keys == NameSet(es) && d.names.Keys == IdSet(es)
  }

  lemma LoadableSnoc(es: seq<DiskEntry>, e: DiskEntry)
    ensures Loadable(es + [e]) <==> Loadable(es) && ValidEntry(e) && e.name !in NameSet(es) && e.id !in IdSet(es)
  {
    hide ValidEntry;
    var all := es + [e];
    assert all[|es|] == e;
    assert forall i :: 0 <= i < |es| ==> all[i] == es[i];
    if Loadable(all) {
      forall x | x in es ensures x.name != e.name && x.id != e.id {
        var i :| 0 <= i < |es| && es[i] == x;
        assert all[i].name != all[|es|].name && all[i].id != all[|es|].id;
      }
    }
  }

  lemma PinsEntry(d: Catalog, e: DiskEntry)
    requires LoadEntry(d, e).Ok?
    ensures var next := LoadEntry(d, e).value;
            && Pinned(next, e) && !next.dirty
            && next.events.Keys == d.events.Keys + {e.name} && |next.events| == |d.events| + 1
            && next.names.Keys == d.names.Keys + {e.id} && |next.names| == |d.names| + 1
  {
    hide ParseTypeName;
    MapGrows(d.events, e.name, Entry(e.id, ParseTypeName(e.valueType).value, None));
    MapGrows(d.names, e.id, e.name);
  }

  lemma PinStays(d: Catalog, e: DiskEntry, x: DiskEntry)
    requires LoadEntry(d, e).Ok? && Pinned(d, x)
    ensures Pinned(LoadEntry(d, e).value, x)
  {
    hide ParseTypeName;
  }

  lemma HoldsMore(es: seq<DiskEntry>, e: DiskEntry, d: Catalog)
    requires Holds(es, d) && LoadEntry(d, e).Ok?
    ensures Holds(es + [e], LoadEntry(d, e).value)
  {
    hide Pinned, NameSet, IdSet, LoadEntry;
    PinsEntry(d, e);
    SetsGrow(es, e);
    forall x | x in es + [e] ensures Pinned(LoadEntry(d, e).value, x) {
      if x != e {
        assert x in es;
        PinStays(d, e, x);
      }
    }
  }

  lemma SetsGrow(es: seq<DiskEntry>, e: DiskEntry)
    ensures NameSet(es + [e]) == NameSet(es) + {e.name} && IdSet(es + [e]) == IdSet(es) + {e.id}
  {
    assert forall x :: x in es + [e] <==> x in es || x == e;
  }

  lemma LoadsOne(es: seq<DiskEntry>, e: DiskEntry, d: Catalog)
    requires Loadable(es) && Holds(es, d)
    ensures LoadEntry(d, e).Ok? <==> Loadable(es + [e])
    ensures LoadEntry(d, e).Ok? ==> Holds(es + [e], LoadEntry(d, e).value)
  {
    hide Pinned, NameSet, IdSet, Loadable, ParseTypeName;
    LoadableSnoc(es, e);
    if LoadEntry(d, e).Ok? {
      HoldsMore(es, e, d);
    }
  }

  lemma {:induction false} LoadsAllIff(es: seq<DiskEntry>)
    ensures LoadAll(es).Ok? <==> Loadable(es)
    ensures LoadAll(es).Ok? ==> Holds(es, LoadAll(es).value)
  {
    hide LoadEntry, Holds, Loadable;
    if es == [] {
      HoldsNothing();
    } else {
      var init, last := es[..|es| - 1], es[|es| - 1];
      assert es == init + [last];
      LoadsAllIff(init);
      LoadableSnoc(init, last);
      if Loadable(init) {
        LoadsOne(init, last, LoadAll(init).value);
      }
    }
  }

  lemma HoldsNothing()
    ensures Holds([], EMPTY) && Loadable([])
  {
  }

  lemma FewEntries(es: seq<DiskEntry>, d: Catalog)
    requires Loadable(es) && Holds(es, d)
    ensures |d.events| <= MAX_EVENTS
  {
    hide Pinned, NameSet, ParseTypeName;
    var ids: set<int> := set k | k in d.names;
    forall k | k in ids ensures k in Upto(MAX_EVENTS) {
      var e :| e in es && e.id == k;
      var i :| 0 <= i < |es| && es[i] == e;
      assert ValidEntry(es[i]);
    }
    SubsetSize(ids, Upto(MAX_EVENTS));
    assert ids == d.names.Keys;
  }

  /** Exactly which files load. */
  lemma LoadsIff(es: seq<DiskEntry>)
    ensures Load(es).Ok? <==> Loadable(es)
    ensures Load(es).Ok? ==> Holds(es, Load(es).value)
  {
    LoadsAllIff(es);
    if Loadable(es) {
      FewEntries(es, LoadAll(es).value);
    }
  }

  // ---------------------------------------------------------------- saving and loading

  /** The registry with nothing known about last timestamps, as a fresh load leaves it. */
  function Stripped(c: Catalog): (d: Catalog) {
    Catalog(map n | n in c.events :: c.events[n].(last := None), c.names, false)
  }

  lemma StrippedKeeps(c: Catalog)
    ensures SamePins(c, Stripped(c))
    ensures Dense(c) ==> Dense(Stripped(c))
  {
    assert Stripped(c).events.Keys == c.events.Keys;
    if Dense(c) { DenseSamePins(c, Stripped(c)); }
  }

  /** Distinct names stay distinct as text, and none outgrows the limit. */
  ghost predicate StaysApart(c: Catalog) {
    && (forall n :: n in c.events ==> |Coerce(n)| <= MAX_NAME_LEN)
    && (forall m, n :: m in c.events && n in c.events && m != n ==> Coerce(m) != Coerce(n))
  }

  lemma EntryAt(c: Catalog, i: nat)
    requires Dense(c) && i < |Entries(c)|
    ensures var e := Entries(c)[i];
            && e.name in c.events && e == DiskEntryOf(e.name, c.events[e.name])
            && e.id in c.names && c.names[e.id] == e.name && e.name != [] && 1 <= e.id <= MAX_EVENTS
            && ParseTypeName(e.valueType) == Some(c.events[e.name].valueType)
            && |Snapshot(c)| == |Entries(c)| && Snapshot(c)[i] == e.(name := Coerce(e.name))
  {
    hide Coerce, SortedNames, SortedByName, IsBlank;
    EntriesList(c);
  }

  lemma EntryFor(c: Catalog, n: Name) returns (i: nat)
    requires n in c.events
    ensures i < |Entries(c)| && Entries(c)[i] == DiskEntryOf(n, c.events[n])
  {
    EntriesList(c);
    hide SortedNames, SortedByName;
    i :| 0 <= i < |Entries(c)| && Entries(c)[i].name == n;
  }

  lemma EntriesDiffer(c: Catalog, i: nat, j: nat)
    requires i < j < |Entries(c)|
    ensures Entries(c)[i].name != Entries(c)[j].name
  {
    EntriesList(c);
  }

  /** The saved entries can be loaded exactly when the names stay apart as text. */
  lemma SavedIsLoadableIff(c: Catalog)
    requires Dense(c)
    ensures Loadable(Snapshot(c)) <==> StaysApart(c)
  {
    hide Coerce, Dense, Entries, Snapshot, TypeName, ParseTypeName;
    var es, rs := Entries(c), Snapshot(c);
    SameLength(c);
    forall i | 0 <= i < |es| ensures ValidEntry(rs[i]) <==> |Coerce(es[i].name)| <= MAX_NAME_LEN {
      EntryAt(c, i);
      CoercedNotEmpty(es[i].name);
    }
    if Loadable(rs) {
      LoadableStaysApart(c);
    }
    if StaysApart(c) {
      forall i | 0 <= i < |es| ensures ValidEntry(rs[i]) {
        EntryAt(c, i);
      }
      forall i, j | 0 <= i < j < |rs| ensures rs[i].name != rs[j].name && rs[i].id != rs[j].id {
        EntryAt(c, i);
        EntryAt(c, j);
        EntriesDiffer(c, i, j);
      }
    }
  }

  lemma SameLength(c: Catalog)
    ensures |Snapshot(c)| == |Entries(c)|
  {
  }

  lemma LoadableStaysApart(c: Catalog)
    requires Dense(c) && Loadable(Snapshot(c))
    ensures StaysApart(c)
  {
    hide Coerce, Dense, Entries, Snapshot, TypeName, ParseTypeName;
    SameLength(c);
    forall n | n in c.events ensures |Coerce(n)| <= MAX_NAME_LEN {
      var i := EntryFor(c, n);
      EntryAt(c, i);
      assert ValidEntry(Snapshot(c)[i]);
    }
    forall m, n | m in c.events && n in c.events && m != n ensures Coerce(m) != Coerce(n) {
      var i := EntryFor(c, m);
      var j := EntryFor(c, n);
      EntryAt(c, i);
      EntryAt(c, j);
      assert Snapshot(c)[i].name != Snapshot(c)[j].name;
    }
  }

  lemma SavedPins(c: Catalog, d: Catalog, k: nat)
    requires Dense(c) && Holds(Snapshot(c), d) && k in c.names
    ensures k in d.names && d.names[k] == Coerce(c.names[k]) && d.names[k] in d.events
    ensures d.events[d.names[k]] == c.events[c.names[k]].(last := None)
  {
    hide Coerce, Entries, Snapshot, TypeName, ParseTypeName, NameSet, IdSet, ValidName, ValidType;
    SameLength(c);
    var i := EntryFor(c, c.names[k]);
    EntryAt(c, i);
    assert Snapshot(c)[i] in Snapshot(c);
    assert Pinned(d, Snapshot(c)[i]);
  }

  /** A saved registry can be loaded exactly when its names stay apart as text; its ids then carry the text of their names. */
  lemma SavedLoadsIff(c: Catalog)
    requires Dense(c)
    ensures Load(Snapshot(c)).Ok? <==> StaysApart(c)
    ensures Load(Snapshot(c)).Ok? ==>
              forall k :: k in c.names ==>
                var d := Load(Snapshot(c)).value;
                k in d.names && d.names[k] == Coerce(c.names[k]) && d.names[k] in d.events
                && d.events[d.names[k]] == c.events[c.names[k]].(last := None)
  {
    hide Load, Coerce, Snapshot, Holds;
    LoadsIff(Snapshot(c));
    SavedIsLoadableIff(c);
    if Load(Snapshot(c)).Ok? {
      var d := Load(Snapshot(c)).value;
      forall k | k in c.names
        ensures k in d.names && d.names[k] == Coerce(c.names[k]) && d.names[k] in d.events
                && d.events[d.names[k]] == c.events[c.names[k]].(last := None)
      {
        SavedPins(c, d, k);
      }
    }
  }

  lemma CoercedNotEmpty(n: Name)
    requires n != []
    ensures Coerce(n) != []
  {
    CoerceGrows(n);
  }

  /** Every name of the registry is valid UTF-8. */
  ghost predicate IsReadable(c: Catalog) {
    forall n :: n in c.events ==> IsText(n)
  }

  lemma ReadableStaysApart(c: Catalog)
    requires Dense(c) && IsReadable(c)
    ensures StaysApart(c)
  {
    forall n | n in c.events ensures Coerce(n) == n {
      CoerceIsIdentityIff(n);
    }
  }

  /** Loading what was saved gives back every pin and nothing else exactly when every name is valid UTF-8. */
  lemma LoadInvertsSnapshotIff(c: Catalog)
    requires Dense(c)
    ensures Load(Snapshot(c)) == Ok(Stripped(c)) <==> IsReadable(c)
  {
    hide Load, Coerce;
    SavedLoadsIff(c);
    if IsReadable(c) {
      ReadableStaysApart(c);
      LoadsIff(Snapshot(c));
      LoadedIsStripped(c, Load(Snapshot(c)).value);
    }
    if Load(Snapshot(c)) == Ok(Stripped(c)) {
      forall n | n in c.events ensures IsText(n) {
        var k := c.events[n].id;
        assert c.names[k] == n;
        CoerceIsIdentityIff(n);
      }
    }
  }

  /** Id k is pinned in d as it is in c, with no last time. */
  ghost predicate PinnedAlike(c: Catalog, d: Catalog, k: nat) {
    k in c.names && k in d.names && d.names[k] == c.names[k] && c.names[k] in d.events && c.names[k] in c.events
    && d.events[c.names[k]] == c.events[c.names[k]].(last := None)
  }

  lemma ReadablePins(c: Catalog, d: Catalog, k: nat)
    requires Dense(c) && IsReadable(c) && Holds(Snapshot(c), d) && k in c.names
    ensures PinnedAlike(c, d, k)
  {
    hide Coerce, Snapshot, Holds, ValidName, ValidType;
    SavedPins(c, d, k);
    CoerceIsIdentityIff(c.names[k]);
  }

  lemma ReadableEntry(c: Catalog, e: DiskEntry)
    requires Dense(c) && IsReadable(c) && e in Snapshot(c)
    ensures e.id in c.names && e.name in c.events
  {
    hide Coerce, Entries, Snapshot, ValidName, ValidType, TypeName, ParseTypeName;
    SameLength(c);
    var i :| 0 <= i < |Snapshot(c)| && Snapshot(c)[i] == e;
    EntryAt(c, i);
    CoerceIsIdentityIff(Entries(c)[i].name);
  }

  lemma LoadedIsStripped(c: Catalog, d: Catalog)
    requires Dense(c) && IsReadable(c) && Holds(Snapshot(c), d)
    ensures d == Stripped(c)
  {
    hide Snapshot, Holds, Stripped, Dense, IsReadable;
    forall k | k in c.names ensures PinnedAlike(c, d, k) {
      ReadablePins(c, d, k);
    }
    forall e | e in Snapshot(c) ensures e.id in c.names.Keys && e.name in c.events.Keys {
      ReadableEntry(c, e);
    }
    HeldKeys(Snapshot(c), d);
    SameKeys(c, d);
  }

  lemma HeldKeys(es: seq<DiskEntry>, d: Catalog)
    requires Holds(es, d)
    ensures d.names.Keys == IdSet(es) && d.events.Keys == NameSet(es) && !d.dirty
  {
    hide Pinned, NameSet, IdSet;
  }

  lemma SameKeys(c: Catalog, d: Catalog)
    requires Dense(c)
    requires forall k :: k in c.names ==> PinnedAlike(c, d, k)
    requires d.names.Keys <= c.names.Keys && d.events.Keys <= c.events.Keys && !d.dirty
    ensures d == Stripped(c)
  {
    hide ValidName, ValidType;
    forall n | n in c.events ensures n in d.events && d.events[n] == Stripped(c).events[n] {
      assert PinnedAlike(c, d, c.events[n].id);
    }
    forall k | k in c.names ensures k in d.names && d.names[k] == c.names[k] {
      assert PinnedAlike(c, d, k);
    }
    assert d.names == c.names;
    assert d.events == Stripped(c).events;
  }

  // ---------------------------------------------------------------- the registry in place

  class EventCatalog {
    var events: map<Name, Entry>
    var idToName: map<nat, Name>
    var dirty: bool

    function View(): Catalog
      reads this
    {
      Catalog(events, idToName, dirty)
    }

    constructor ()
      ensures View() == EMPTY
    {
      events, idToName, dirty := map[], map[], false;
    }

    method GetOrAssignEventID(name: Name, valueType: byte) returns (r: Result<nat, CatalogError>)
      modifies this
      ensures (View(), r) == Assign(old(View()), name, valueType)
    {
      if name == [] { return Err(NameEmpty); }
      if |name| > MAX_NAME_LEN { return Err(NameTooLong); }
      if !ValidType(valueType) { return Err(BadValueType); }
      if name in events {
        if events[name].valueType != valueType { return Err(TypeMismatch); }
        return Ok(events[name].id);
      }
      if |events| >= MAX_EVENTS { return Err(TooManyEvents); }
      var newID := |events| + 1;
      events := events[name := Entry(newID, valueType, None)];
      idToName := idToName[newID := name];
      dirty := true;
      return Ok(newID);
    }

    method EnsureEventEntry(name: Name, id: nat, valueType: byte) returns (r: Result<(), CatalogError>)
      modifies this
      ensures match Ensure(old(View()), name, id, valueType)
              case Ok(c) => View() == c && r == Ok(())
              case Err(e) => View() == old(View()) && r == Err(e)
    {
      if IsBlank(name) { return Err(NameEmpty); }
      if |name| > MAX_NAME_LEN { return Err(NameTooLong); }
      if id == 0 || id > MAX_EVENTS { return Err(IdOutOfRange); }
      if !ValidType(valueType) { return Err(BadValueType); }
      if id in idToName && idToName[id] != name { return Err(IdTaken); }
      if name in events {
        if events[name].id != id { return Err(IdMismatch); }
        if events[name].valueType != valueType { return Err(TypeMismatch); }
        idToName := idToName[id := name];
        return Ok(());
      }
      if |events| >= MAX_EVENTS { return Err(TooManyEvents); }
      events := events[name := Entry(id, valueType, None)];
      idToName := idToName[id := name];
      dirty := true;
      return Ok(());
    }

    method UpdateLastByEventID(id: nat, ts: Timestamp) returns (r: Result<(), CatalogError>)
      modifies this
      ensures match UpdateLast(old(View()), id, ts)
              case Ok(c) => View() == c && r == Ok(())
              case Err(e) => View() == old(View()) && r == Err(e)
    {
      if id !in idToName { return Err(IdNotFound); }
      var name := idToName[id];
      var entry := if name in events then events[name] else Entry(0, VALUE_NONE, None);
      if entry.last.None? || ts >= entry.last.value {
        entry := entry.(last := Some(ts));
        events := events[name := entry];
      }
      return Ok(());
    }

    /** The entries to persist, gathered from the map in any order and put in name order. */
    method CatalogEntries() returns (es: seq<DiskEntry>)
      ensures es == Entries(View())
    {
      var entries := events;
      var names := ListNames(entries.Keys);
      SortedNamesLists(entries.Keys);
      es := seq(|names|, i requires 0 <= i < |names| => DiskEntryOf(names[i], entries[names[i]]));
    }

    /** LoadEventCatalog: validates entry by entry; on an error nothing usable is returned. */
    method LoadFrom(es: seq<DiskEntry>) returns (r: Result<(), CatalogError>)
      modifies this
      ensures match Load(es)
              case Ok(c) => View() == c && r == Ok(())
              case Err(e) => r == Err(e)
    {
      hide ParseTypeName;
      events, idToName, dirty := map[], map[], false;
      var i := 0;
      while i < |es|
        invariant 0 <= i <= |es|
        invariant LoadAll(es[..i]) == Ok(View())
      {
        var e := es[i];
        assert es[..i + 1][..i] == es[..i];
        if LoadEntry(View(), e).Err? {
          LoadStops(es, i + 1);
          return Err(LoadEntry(View(), e).error);
        }
        events := events[e.name := Entry(e.id, ParseTypeName(e.valueType).value, None)];
        idToName := idToName[e.id := e.name];
        i := i + 1;
      }
      assert es[..|es|] == es;
      if |events| > MAX_EVENTS { return Err(TooManyEvents); }
      return Ok(());
    }
  }

  lemma {:induction false} LoadStops(es: seq<DiskEntry>, k: nat)
    requires k <= |es| && LoadAll(es[..k]).Err?
    ensures LoadAll(es) == LoadAll(es[..k])
    decreases |es| - k
  {
    if k == |es| {
      assert es[..k] == es;
    } else {
      assert es[..k + 1][..k] == es[..k];
      LoadStops(es, k + 1);
    }
  }
}
