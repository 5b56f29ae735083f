/** Datatypes and sequence facts shared by every module. */
module Prelude {

  datatype Option<+T> = None | Some(value: T)

  datatype Result<+T, +E> = Ok(value: T) | Err(error: E)

  /** Partition keys, numbered in the order of their strings. */
  type Part = int

  function Min(a: int, b: int): int { if a <= b then a else b }

  function Max(a: int, b: int): int { if a >= b then a else b }

  function Flatten<T>(ss: seq<seq<T>>): (s: seq<T>) {
    if ss == [] then [] else ss[0] + Flatten(ss[1..])
  }

  lemma {:induction false} FlattenAppend<T>(ss: seq<seq<T>>, tt: seq<seq<T>>)
    ensures Flatten(ss + tt) == Flatten(ss) + Flatten(tt)
  {
    if ss == [] {
      assert ss + tt == tt;
    } else {
      assert (ss + tt)[1..] == ss[1..] + tt;
      FlattenAppend(ss[1..], tt);
    }
  }

  lemma FlattenSnoc<T>(ss: seq<seq<T>>, s: seq<T>)
    ensures Flatten(ss + [s]) == Flatten(ss) + s
  {
    FlattenAppend(ss, [s]);
    assert Flatten([s]) == s + Flatten<T>([]);
  }

  lemma HeadIsMember<T>(s: seq<T>)
    requires s != []
    ensures s[0] in s
  {
  }

  lemma {:induction false} FlattenMember<T>(ss: seq<seq<T>>, x: T)
    ensures x in Flatten(ss) <==> exists i :: 0 <= i < |ss| && x in ss[i]
  {
    if ss != [] {
      FlattenMember(ss[1..], x);
      assert forall i :: 0 < i < |ss| ==> ss[i] == ss[1..][i - 1];
      assert x in Flatten(ss) <==> x in ss[0] || x in Flatten(ss[1..]);
    }
  }

  lemma HasMember(s: set<Part>)
    requires s != {}
    ensures exists p: Part :: p in s
  {
    assert (forall p: Part :: p !in s) ==> s == {};
  }

  // ---------------------------------------------------------------- callbacks

  /** What a callback has been given, and whether it failed on the last of it. */
  datatype Calls<T> = Calls(given: seq<T>, failed: bool)

  /**
   The calls that items lead to after `before` has been given: one call an item, up to the first that fails. `fails`
   tells whether a callback fails on the last of what it has been given.
   */
  function CallsFrom<T>(fails: seq<T> -> bool, before: seq<T>, items: seq<T>): (c: Calls<T>) {
    if items == [] then Calls(before, false)
    else
      var c := CallsFrom(fails, before, items[..|items| - 1]);
      if c.failed then c
      else
        var given := c.given + [items[|items| - 1]];
        Calls(given, fails(given))
  }

  lemma CallsSnoc<T>(fails: seq<T> -> bool, before: seq<T>, items: seq<T>, x: T)
    ensures var c := CallsFrom(fails, before, items);
            CallsFrom(fails, before, items + [x]) == if c.failed then c else Calls(c.given + [x], fails(c.given + [x]))
  {
    assert (items + [x])[..|items|] == items;
  }

  /** The calls are on the items in order; all of them when none fails, else up to the first that does. */
  lemma {:induction false} CallsAre<T>(fails: seq<T> -> bool, before: seq<T>, items: seq<T>)
    ensures var c := CallsFrom(fails, before, items);
            && c.given <= before + items
            && (!c.failed ==> c.given == before + items)
            && (c.failed <==> exists j :: |before| < j <= |before| + |items| && fails((before + items)[..j]))
            && (c.failed ==> |before| < |c.given| && fails(c.given))
            && (forall j :: |before| < j < |c.given| ==> !fails((before + items)[..j]))
  {
    if items == [] {
      assert before + items == before;
    } else {
      var init, x := items[..|items| - 1], items[|items| - 1];
      CallsAre(fails, before, init);
      var c := CallsFrom(fails, before, init);
      var all := before + items;
      assert all == (before + init) + [x];
      assert forall j :: 0 <= j <= |before| + |init| ==> all[..j] == (before + init)[..j];
      assert all[..|all|] == all;
      if c.failed {
        var j :| |before| < j <= |before| + |init| && fails((before + init)[..j]);
        assert fails(all[..j]);
      } else if fails(all) {
        assert fails(all[..|all|]);
      }
    }
  }

  lemma {:induction false} CallsAppend<T>(fails: seq<T> -> bool, before: seq<T>, a: seq<T>, b: seq<T>)
    ensures var c := CallsFrom(fails, before, a);
            CallsFrom(fails, before, a + b) == if c.failed then c else CallsFrom(fails, c.given, b)
    decreases |b|
  {
    if b == [] {
      assert a + b == a;
    } else {
      var init, x := b[..|b| - 1], b[|b| - 1];
      CallsAppend(fails, before, a, init);
      assert a + b == (a + init) + [x];
      CallsSnoc(fails, before, a + init, x);
    }
  }

  /** A call that fails is the last, whatever items would have followed. */
  lemma CallsStop<T>(fails: seq<T> -> bool, before: seq<T>, a: seq<T>, all: seq<T>)
    requires a <= all && CallsFrom(fails, before, a).failed
    ensures CallsFrom(fails, before, all) == CallsFrom(fails, before, a)
  {
    assert all == a + all[|a|..];
    CallsAppend(fails, before, a, all[|a|..]);
  }

  // ---------------------------------------------------------------- counting

  lemma SubsetSize<T>(a: set<T>, b: set<T>)
    requires a <= b
    ensures |a| <= |b|
    ensures |a| == |b| ==> a == b
  {
    var rest := b - a;
    assert b == a + rest;
    assert |b| == |a| + |rest|;
  }

  /** The numbers 1..n. */
  function Upto(n: nat): (s: set<int>)
    ensures |s| == n
    ensures forall k: int :: k in s <==> 1 <= k <= n
  {
    if n == 0 then {} else Upto(n - 1) + {n}
  }

  lemma MapGrows<K, V>(m: map<K, V>, k: K, v: V)
    requires k !in m
    ensures m[k := v].Keys == m.Keys + {k} && |m[k := v]| == |m| + 1
  {
    assert |m[k := v].Keys| == |m.Keys| + 1;
  }
}
