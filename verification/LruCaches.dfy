/**
 The caches in front of V2 metric files: index tables by file and time frames by file and frame. One class serves
 both; they differ in what an entry weighs.
 */
module LruCaches {
  import opened Prelude

  const MAX_BYTES: nat := 32 * 1024 * 1024
  const DEFAULT_ENTRIES: nat := 256

  datatype Entry<V> = Entry(value: V, bytes: nat)

  /** The bytes of the entries listed. */
  function Weight<K, V>(entries: map<K, Entry<V>>, order: seq<K>): (n: nat)
    requires forall k :: k in order ==> k in entries
  {
    if order == [] then 0
    else
      assert order[|order| - 1] in order;
      assert forall k :: k in order[..|order| - 1] ==> k in order;
      Weight(entries, order[..|order| - 1]) + entries[order[|order| - 1]].bytes
  }

  lemma {:induction false} WeightSame<K, V>(a: map<K, Entry<V>>, b: map<K, Entry<V>>, order: seq<K>)
    requires forall k :: k in order ==> k in a && k in b && a[k] == b[k]
    ensures Weight(a, order) == Weight(b, order)
  {
    if order != [] {
      assert forall k :: k in order[..|order| - 1] ==> k in order;
      assert order[|order| - 1] in order;
      WeightSame(a, b, order[..|order| - 1]);
    }
  }

  lemma {:induction false} WeightAppend<K, V>(entries: map<K, Entry<V>>, s: seq<K>, t: seq<K>)
    requires forall k :: k in s + t ==> k in entries
    ensures forall k :: k in s ==> k in entries
    ensures forall k :: k in t ==> k in entries
    ensures Weight(entries, s + t) == Weight(entries, s) + Weight(entries, t)
    decreases |t|
  {
    forall k | k in s ensures k in entries { assert k in s + t; }
    forall k | k in t ensures k in entries { assert k in s + t; }
    if t == [] {
      assert s + t == s;
    } else {
      var init, last := t[..|t| - 1], t[|t| - 1];
      assert s + t == (s + init) + [last];
      assert (s + t)[..|s + t| - 1] == s + init;
      assert forall k :: k in s + init ==> k in s + t;
      WeightAppend(entries, s, init);
    }
  }

  ghost predicate NoRepeats<K(!new)>(s: seq<K>) {
    forall i, j :: 0 <= i < j < |s| ==> s[i] != s[j]
  }

  function Without<K(==)>(s: seq<K>, k: K): (r: seq<K>) {
    if s == [] then [] else Without(s[..|s| - 1], k) + if s[|s| - 1] == k then [] else [s[|s| - 1]]
  }

  lemma {:induction false} WithoutFacts<K(!new)>(s: seq<K>, k: K)
    ensures forall x :: x in Without(s, k) <==> x in s && x != k
    ensures NoRepeats(s) ==> NoRepeats(Without(s, k))
    ensures k !in s ==> Without(s, k) == s
  {
    if s != [] {
      var init, last := s[..|s| - 1], s[|s| - 1];
      assert s == init + [last];
      WithoutFacts(init, k);
      if NoRepeats(s) {
        assert last !in init;
        assert NoRepeats(init);
      }
    }
  }

  /** What the limits allow. */
  ghost predicate Within<K(!new), V>(entries: map<K, Entry<V>>, order: seq<K>, maxEntries: nat)
    requires forall k :: k in order ==> k in entries
  {
    |order| <= maxEntries && Weight(entries, order) <= MAX_BYTES
  }

  /** The entries kept of `order`, most recent first: its longest prefix within the limits. */
  ghost predicate Survives<K(!new), V>(entries: map<K, Entry<V>>, order: seq<K>, maxEntries: nat, kept: seq<K>)
    requires forall k :: k in order ==> k in entries
  {
    && kept <= order
    && (forall k :: k in kept ==> k in entries)
    && Within(entries, kept, maxEntries)
    && forall n :: |kept| < n <= |order| ==> PrefixIn(entries, order, n) && !Within(entries, order[..n], maxEntries)
  }

  ghost predicate PrefixIn<K(!new), V>(entries: map<K, Entry<V>>, order: seq<K>, n: nat)
    requires n <= |order|
  {
    forall k :: k in order[..n] ==> k in entries
  }

  class LruCache<K(==, !new), V> {
    const sizeOf: V -> nat
    var entries: map<K, Entry<V>>
    var order: seq<K>         // the list of the cache, most recently used first
    var bytes: nat
    var maxEntries: nat
    var hits: nat
    var misses: nat
    var evictions: nat

    ghost predicate Linked()
      reads this
    {
      && NoRepeats(order) && (forall k :: k in entries <==> k in order) && |entries| == |order|
      && bytes == Weight(entries, order)
      && (forall k :: k in entries ==> entries[k].bytes == sizeOf(entries[k].value))
      && maxEntries >= 1
    }

    /** The byte counter is the sum of the entries, and both limits hold. */
    ghost predicate Valid()
      reads this
    {
      Linked() && Within(entries, order, maxEntries)
    }

    constructor (size: V -> nat)
      ensures Valid() && entries == map[] && maxEntries == DEFAULT_ENTRIES && sizeOf == size
    {
      sizeOf := size;
      entries, order, bytes, maxEntries := map[], [], 0, DEFAULT_ENTRIES;
      hits, misses, evictions := 0, 0, 0;
    }

    method Get(key: K) returns (r: Option<V>)
      requires Valid()
      modifies this`order, this`hits, this`misses
      ensures Valid()
      ensures r == if key in entries then Some(entries[key].value) else None
      ensures order == if key in entries then [key] + Without(old(order), key) else old(order)
      ensures hits == old(hits) + (if r.Some? then 1 else 0) && misses == old(misses) + (if r.None? then 1 else 0)
    {
      if key !in entries {
        misses := misses + 1;
        return None;
      }
      hits := hits + 1;
      MoveToFront(key);
      return Some(entries[key].value);
    }

    method MoveToFront(key: K)
      requires Linked() && key in entries
      modifies this`order
      ensures Linked() && order == [key] + Without(old(order), key) && |order| == |old(order)|
    {
      FrontWeight(entries, order, key);
      WithoutFacts(order, key);
      order := [key] + Without(order, key);
      SameSize(order, entries);
    }

    /** Drops the least recently used entry. */
    method EvictBack()
      requires Linked() && order != []
      modifies this`entries, this`order, this`bytes, this`evictions
      ensures Linked() && order == old(order)[..|old(order)| - 1] && evictions == old(evictions) + 1
      ensures entries == old(entries) - {old(order)[|old(order)| - 1]}
    {
      hide Weight;
      var back := order[|order| - 1];
      DropBack(entries, order);
      BackIsLast(entries, order, back);
      bytes := bytes - entries[back].bytes;
      entries := entries - {back};
      order := order[..|order| - 1];
      evictions := evictions + 1;
      SameSize(order, entries);
    }

    /** Drops the least recently used entries until both limits hold. */
    method Evict()
      requires Linked()
      modifies this`entries, this`order, this`bytes, this`evictions
      ensures Valid()
      ensures Survives(old(entries), old(order), maxEntries, order)
      ensures forall k :: k in entries ==> k in old(entries) && entries[k] == old(entries)[k]
      ensures evictions == old(evictions) + |old(order)| - |order|
    {
      hide Linked, Within, Survives, OverBeyond;
      ghost var all, start := entries, order;
      LimitsTold();
      NoneBeyond(all, start, maxEntries);
      while |entries| > maxEntries || bytes > MAX_BYTES
        invariant Linked() && order <= start
        invariant forall k :: k in entries ==> k in all && entries[k] == all[k]
        invariant OverBeyond(all, start, |order|, maxEntries)
        invariant evictions == old(evictions) + |start| - |order|
        decreases |order|
      {
        LimitsTold();
        if |order| == 0 { return; }
        OneMoreOver(all, start, entries, order, maxEntries);
        EvictBack();
      }
      LimitsTold();
      Kept(all, start, entries, order, maxEntries);
    }

    /** The two comparisons of the loop decide the limits. */
    lemma LimitsTold()
      requires Linked()
      ensures forall k :: k in order ==> k in entries
      ensures Within(entries, order, maxEntries) <==> |entries| <= maxEntries && bytes <= MAX_BYTES
      ensures order == [] ==> Within(entries, order, maxEntries)
    {
    }

    /** Puts an entry at the front, replacing one of the same key. */
    method PutFront(key: K, e: Entry<V>)
      requires Linked() && e.bytes == sizeOf(e.value)
      modifies this`entries, this`order, this`bytes
      ensures Linked() && order == [key] + Without(old(order), key) && entries == old(entries)[key := e]
    {
      hide Weight, Without, NoRepeats;
      if key in entries {
        Reweigh(entries, order, key, e);
        bytes := bytes - entries[key].bytes + e.bytes;
        entries := entries[key := e];
        SameSize(order, entries);
        MoveToFront(key);
      } else {
        NewFront(entries, order, key, e);
        WithoutFacts(order, key);
        entries := entries[key := e];
        order := [key] + order;
        bytes := bytes + e.bytes;
        SameSize(order, entries);
      }
    }

    /** Stores a value as the most recently used entry, then evicts. */
    method Put(key: K, value: V)
      requires Valid()
      modifies this
      ensures Valid() && maxEntries == old(maxEntries)
      ensures var put := old(entries)[key := Entry(value, sizeOf(value))];
              && (forall k :: k in [key] + Without(old(order), key) ==> k in put)
              && Survives(put, [key] + Without(old(order), key), maxEntries, order)
              && (forall k :: k in entries ==> k in put && entries[k] == put[k])
    {
      hide Weight, Without, Survives, NoRepeats;
      PutFront(key, Entry(value, sizeOf(value)));
      Evict();
    }

    /** A setting at or below zero falls back to the default. */
    method Configure(slots: int)
      requires Valid()
      modifies this
      ensures Valid() && maxEntries == if slots <= 0 then DEFAULT_ENTRIES else slots
      ensures Survives(old(entries), old(order), maxEntries, order)
      ensures forall k :: k in entries ==> k in old(entries) && entries[k] == old(entries)[k]
    {
      maxEntries := if slots <= 0 then DEFAULT_ENTRIES else slots;
      Evict();
    }
  }

  lemma {:induction false} SameSize<K(!new), V>(order: seq<K>, entries: map<K, Entry<V>>)
    requires NoRepeats(order) && forall k :: k in entries <==> k in order
    ensures |entries| == |order|
    decreases |order|
  {
    if order == [] {
      assert entries == map[];
    } else {
      var init, last := order[..|order| - 1], order[|order| - 1];
      assert order == init + [last];
      var rest := entries - {last};
      assert forall k :: k in rest <==> k in init;
      SameSize(init, rest);
      assert entries.Keys == rest.Keys + {last};
      assert |entries| == |entries.Keys| && |rest| == |rest.Keys|;
    }
  }

  /** Moving an entry to the front keeps the weight. */
  lemma FrontWeight<K(!new), V>(entries: map<K, Entry<V>>, order: seq<K>, key: K)
    requires NoRepeats(order) && key in order && forall k :: k in order ==> k in entries
    ensures forall k :: k in [key] + Without(order, key) ==> k in entries
    ensures Weight(entries, [key] + Without(order, key)) == Weight(entries, order)
    ensures |Without(order, key)| == |order| - 1 && NoRepeats([key] + Without(order, key))
  {
    hide Weight, Without;
    var i :| 0 <= i < |order| && order[i] == key;
    var a, b := order[..i], order[i + 1..];
    assert order == a + [key] + b;
    assert key !in a && key !in b;
    WithoutSplit(a, key, b);
    WithoutFacts(order, key);
    FrontSplit(entries, a, key, b);
  }

  lemma FrontSplit<K(!new), V>(entries: map<K, Entry<V>>, a: seq<K>, key: K, b: seq<K>)
    requires forall k :: k in a + [key] + b ==> k in entries
    ensures forall k :: k in [key] + (a + b) ==> k in entries
    ensures Weight(entries, [key] + (a + b)) == Weight(entries, a + [key] + b)
  {
    hide Weight;
    forall k | k in [key] + (a + b) ensures k in entries {
      assert k in a + [key] + b;
    }
    forall k | k in a + b ensures k in entries {
      assert k in a + [key] + b;
    }
    WeightAppend(entries, a + [key], b);
    WeightAppend(entries, a, [key]);
    WeightAppend(entries, a, b);
    WeightAppend(entries, [key], a + b);
  }

  lemma {:induction false} WithoutSplit<K(!new)>(a: seq<K>, key: K, b: seq<K>)
    requires key !in a && key !in b
    ensures Without(a + [key] + b, key) == a + b
    decreases |b|
  {
    if b == [] {
      assert a + [key] + b == a + [key];
      assert (a + [key])[..|a|] == a;
      WithoutFacts(a, key);
    } else {
      var init, last := b[..|b| - 1], b[|b| - 1];
      assert a + [key] + b == (a + [key] + init) + [last];
      assert (a + [key] + b)[..|a| + |b|] == a + [key] + init;
      WithoutSplit(a, key, init);
    }
  }

  /** Every prefix of `start` longer than k breaks a limit. */
  ghost predicate OverBeyond<K(!new), V>(all: map<K, Entry<V>>, start: seq<K>, k: nat, maxEntries: nat) {
    && k <= |start|
    && forall n :: k < n <= |start| ==> PrefixIn(all, start, n) && !Within(all, start[..n], maxEntries)
  }

  lemma NoneBeyond<K(!new), V>(all: map<K, Entry<V>>, start: seq<K>, maxEntries: nat)
    ensures OverBeyond(all, start, |start|, maxEntries)
  {
  }

  lemma OneMoreOver<K(!new), V>(all: map<K, Entry<V>>, start: seq<K>, entries: map<K, Entry<V>>, order: seq<K>, maxEntries: nat)
    requires order != [] && order <= start && (forall k :: k in order ==> k in entries)
    requires forall k :: k in entries ==> k in all && entries[k] == all[k]
    requires OverBeyond(all, start, |order|, maxEntries) && !Within(entries, order, maxEntries)
    ensures OverBeyond(all, start, |order| - 1, maxEntries)
  {
    StillOver(all, start, entries, order, maxEntries);
    hide Within, PrefixIn;
    forall n | |order| - 1 < n <= |start| ensures PrefixIn(all, start, n) && !Within(all, start[..n], maxEntries) {
      assert n == |order| || n > |order|;
    }
  }

  lemma Kept<K(!new), V>(all: map<K, Entry<V>>, start: seq<K>, entries: map<K, Entry<V>>, order: seq<K>, maxEntries: nat)
    requires order <= start && (forall k :: k in start ==> k in all) && (forall k :: k in order ==> k in entries)
    requires forall k :: k in entries ==> k in all && entries[k] == all[k]
    requires OverBeyond(all, start, |order|, maxEntries) && Within(entries, order, maxEntries)
    ensures Survives(all, start, maxEntries, order)
  {
    WeightSame(entries, all, order);
  }

  lemma StillOver<K(!new), V>(all: map<K, Entry<V>>, start: seq<K>, entries: map<K, Entry<V>>, order: seq<K>, maxEntries: nat)
    requires order <= start && (forall k :: k in order ==> k in entries)
    requires forall k :: k in entries ==> k in all && entries[k] == all[k]
    requires !Within(entries, order, maxEntries)
    ensures PrefixIn(all, start, |order|) && !Within(all, start[..|order|], maxEntries)
  {
    assert start[..|order|] == order;
    WeightSame(entries, all, order);
  }

  lemma BackIsLast<K(!new), V>(entries: map<K, Entry<V>>, order: seq<K>, back: K)
    requires order != [] && NoRepeats(order) && back == order[|order| - 1] && forall k :: k in entries <==> k in order
    ensures var init := order[..|order| - 1];
            forall k :: k in entries - {back} <==> k in init
  {
    var init := order[..|order| - 1];
    assert order == init + [back];
  }

  lemma DropBack<K(!new), V>(entries: map<K, Entry<V>>, order: seq<K>)
    requires order != [] && NoRepeats(order) && forall k :: k in order ==> k in entries
    ensures var init, back := order[..|order| - 1], order[|order| - 1];
            && (forall k :: k in init ==> k in entries - {back})
            && Weight(entries, order) == Weight(entries - {back}, init) + entries[back].bytes
            && NoRepeats(init)
  {
    var init, back := order[..|order| - 1], order[|order| - 1];
    assert forall k :: k in init ==> k in order && k != back;
    WeightSame(entries, entries - {back}, init);
  }

  lemma Reweigh<K(!new), V>(entries: map<K, Entry<V>>, order: seq<K>, key: K, e: Entry<V>)
    requires NoRepeats(order) && key in order && forall k :: k in order ==> k in entries
    ensures Weight(entries[key := e], order) == Weight(entries, order) - entries[key].bytes + e.bytes
    ensures Weight(entries, order) >= entries[key].bytes
  {
    var i :| 0 <= i < |order| && order[i] == key;
    var a, b := order[..i], order[i + 1..];
    var put := entries[key := e];
    assert order == (a + [key]) + b;
    WeightAppend(entries, a + [key], b);
    WeightAppend(entries, a, [key]);
    WeightAppend(put, a + [key], b);
    WeightAppend(put, a, [key]);
    WeightSame(entries, put, a);
    WeightSame(entries, put, b);
  }

  lemma NewFront<K(!new), V>(entries: map<K, Entry<V>>, order: seq<K>, key: K, e: Entry<V>)
    requires NoRepeats(order) && key !in order && forall k :: k in order ==> k in entries
    ensures forall k :: k in [key] + order ==> k in entries[key := e]
    ensures Weight(entries[key := e], [key] + order) == Weight(entries, order) + e.bytes
    ensures NoRepeats([key] + order)
  {
    var put := entries[key := e];
    WeightAppend(put, [key], order);
    WeightSame(entries, put, order);
  }
}
