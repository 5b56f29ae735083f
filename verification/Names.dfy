/** The names of metrics and events: trimming, order, and what becomes of a name in a JSON file. */
module Names {
  import opened Prelude
  import opened Bytes

  type Name = bytes

  const MAX_NAME_LEN: int := 255

  // ---------------------------------------------------------------- trimming

  predicate IsSpace(c: byte) {
    c == 32 || 9 <= c <= 13
  }

  /** The other white space of Unicode, in UTF-8. */
  const WIDE_SPACES: seq<Name> :=
    [[0xC2, 0x85], [0xC2, 0xA0], [0xE1, 0x9A, 0x80],
     [0xE2, 0x80, 0x80], [0xE2, 0x80, 0x81], [0xE2, 0x80, 0x82], [0xE2, 0x80, 0x83], [0xE2, 0x80, 0x84], [0xE2, 0x80, 0x85],
     [0xE2, 0x80, 0x86], [0xE2, 0x80, 0x87], [0xE2, 0x80, 0x88], [0xE2, 0x80, 0x89], [0xE2, 0x80, 0x8A],
     [0xE2, 0x80, 0xA8], [0xE2, 0x80, 0xA9], [0xE2, 0x80, 0xAF], [0xE2, 0x81, 0x9F], [0xE3, 0x80, 0x80]]

  /** The length of the first entry that s begins with; 0 when there is none. */
  function HeadLen(table: seq<Name>, s: Name): (n: nat)
    ensures n <= |s|
  {
    if table == [] then 0 else if table[0] <= s then |table[0]| else HeadLen(table[1..], s)
  }

  /** The length of the first entry that s ends with; 0 when there is none. */
  function TailLen(table: seq<Name>, s: Name): (n: nat)
    ensures n <= |s|
  {
    if table == [] then 0
    else if |table[0]| <= |s| && s[|s| - |table[0]|..] == table[0] then |table[0]|
    else TailLen(table[1..], s)
  }

  /** The length of the white space at the head of s; 0 when there is none. */
  function SpaceLen(s: Name): (n: nat)
    ensures n <= |s|
  {
    if s == [] then 0
    else if IsSpace(s[0]) then 1
    else if s[0] < 0x80 then 0
    else HeadLen(WIDE_SPACES, s)
  }

  /** The length of the white space at the end of s; 0 when there is none. */
  function SpaceEnd(s: Name): (n: nat)
    ensures n <= |s|
  {
    if s == [] then 0
    else if IsSpace(s[|s| - 1]) then 1
    else if s[|s| - 1] < 0x80 then 0
    else TailLen(WIDE_SPACES, s)
  }

  function TrimLeft(s: Name): Name {
    if SpaceLen(s) > 0 then TrimLeft(s[SpaceLen(s)..]) else s
  }

  function TrimRight(s: Name): Name {
    if SpaceEnd(s) > 0 then TrimRight(s[..|s| - SpaceEnd(s)]) else s
  }

  /** strings.TrimSpace. */
  function Trim(s: Name): Name {
    TrimRight(TrimLeft(s))
  }

  /** Nothing but white space. */
  predicate IsBlank(s: Name) {
    s == [] || (SpaceLen(s) > 0 && IsBlank(s[SpaceLen(s)..]))
  }

  /** When all of s is one entry, s begins with an entry. */
  lemma {:induction false} WholeIsHead(table: seq<Name>, s: Name)
    requires s != [] && TailLen(table, s) == |s|
    ensures HeadLen(table, s) > 0 && s in table
  {
    if table[0] != s {
      assert s[0..] == s;
      WholeIsHead(table[1..], s);
    }
  }

  lemma WideStarts()
    ensures forall w :: w in WIDE_SPACES ==> |w| >= 2 && 0xC2 <= w[0] <= 0xE3
  {
  }

  lemma {:induction false} OtherHead(table: seq<Name>, s: Name)
    requires s != [] && forall w :: w in table ==> w != [] && w[0] != s[0]
    ensures HeadLen(table, s) == 0
  {
    if table != [] {
      assert table[0] in table && forall w :: w in table[1..] ==> w in table;
      OtherHead(table[1..], s);
    }
  }

  lemma ReplacementIsNotBlank()
    ensures !IsBlank(REPLACEMENT)
  {
    WideStarts();
    OtherHead(WIDE_SPACES, REPLACEMENT);
  }

  lemma {:induction false} TooShort(table: seq<Name>, s: Name)
    requires forall w :: w in table ==> |w| > |s|
    ensures HeadLen(table, s) == 0 && TailLen(table, s) == 0
  {
    if table != [] {
      TooShort(table[1..], s);
    }
  }

  lemma OneByte(n: Name)
    requires |n| == 1 && !IsSpace(n[0])
    ensures Trim(n) == n && !IsBlank(n)
  {
    OneByteStays(n);
    hide SpaceLen, SpaceEnd;
    assert TrimLeft(n) == n;
  }

  lemma OneByteStays(n: Name)
    requires |n| == 1 && !IsSpace(n[0])
    ensures SpaceLen(n) == 0 && SpaceEnd(n) == 0
  {
    hide HeadLen, TailLen, WIDE_SPACES;
    WideStarts();
    TooShort(WIDE_SPACES, n);
  }

  /** What s[..k] begins with, s begins with. */
  lemma {:induction false} HeadOfPrefix(table: seq<Name>, s: Name, k: nat)
    requires k <= |s| && HeadLen(table, s) == 0 && forall i :: 0 <= i < |table| ==> table[i] != []
    ensures HeadLen(table, s[..k]) == 0
  {
    if table != [] {
      HeadOfPrefix(table[1..], s, k);
    }
  }

  /** A name that does not begin with white space still has something, and still does not, once its end is trimmed. */
  lemma {:induction false} TrimRightKeepsHead(s: Name)
    requires s != [] && SpaceLen(s) == 0
    ensures TrimRight(s) != [] && SpaceLen(TrimRight(s)) == 0
  {
    if SpaceEnd(s) > 0 {
      var init := s[..|s| - SpaceEnd(s)];
      if init == [] {
        if !IsSpace(s[|s| - 1]) {
          WholeIsHead(WIDE_SPACES, s);
          WideStarts();
        }
        assert false;
      }
      if s[0] >= 0x80 {
        HeadOfPrefix(WIDE_SPACES, s, |init|);
      }
      TrimRightKeepsHead(init);
    }
  }

  lemma {:induction false} TrimLeftHead(s: Name)
    ensures SpaceLen(TrimLeft(s)) == 0
    ensures TrimLeft(s) == [] <==> IsBlank(s)
  {
    if SpaceLen(s) > 0 {
      TrimLeftHead(s[SpaceLen(s)..]);
    }
  }

  /** A name is blank exactly when nothing of it is left once it is trimmed; what is left is not blank. */
  lemma BlankIff(s: Name)
    ensures IsBlank(s) <==> Trim(s) == []
    ensures !IsBlank(s) ==> !IsBlank(Trim(s)) && SpaceLen(Trim(s)) == 0
  {
    TrimLeftHead(s);
    if TrimLeft(s) != [] {
      TrimRightKeepsHead(TrimLeft(s));
    }
  }

  // ---------------------------------------------------------------- names as JSON text

  predicate IsContinuation(c: byte) {
    0x80 <= c <= 0xBF
  }

  /** The length of the UTF-8 character at the head of b; 0 when there is none. */
  function RuneLen(b: bytes): (n: nat)
    ensures n <= |b|
  {
    if b == [] then 0
    else if b[0] < 0x80 then 1
    else if |b| < 2 || !IsContinuation(b[1]) then 0
    else if 0xC2 <= b[0] <= 0xDF then 2
    else if |b| < 3 || !IsContinuation(b[2]) then 0
    else if 0xE0 <= b[0] <= 0xEF then if (b[0] == 0xE0 && b[1] < 0xA0) || (b[0] == 0xED && b[1] > 0x9F) then 0 else 3
    else if |b| < 4 || !IsContinuation(b[3]) then 0
    else if 0xF0 <= b[0] <= 0xF4 then if (b[0] == 0xF0 && b[1] < 0x90) || (b[0] == 0xF4 && b[1] > 0x8F) then 0 else 4
    else 0
  }

  /** Valid UTF-8. */
  predicate IsText(b: bytes) {
    b == [] || (RuneLen(b) > 0 && IsText(b[RuneLen(b)..]))
  }

  /** The bytes of U+FFFD. */
  const REPLACEMENT: bytes := [0xEF, 0xBF, 0xBD]

  /** What a string reads as once encoding/json has written it: each byte that is not valid UTF-8 becomes U+FFFD. */
  function Coerce(b: bytes): (r: bytes) {
    if b == [] then []
    else if RuneLen(b) == 0 then REPLACEMENT + Coerce(b[1..])
    else b[..RuneLen(b)] + Coerce(b[RuneLen(b)..])
  }

  lemma {:induction false} CoerceGrows(b: bytes)
    ensures |Coerce(b)| >= |b| && (|Coerce(b)| == |b| <==> IsText(b))
  {
    hide RuneLen;
    if b != [] {
      CoerceGrows(b[if RuneLen(b) == 0 then 1 else RuneLen(b)..]);
    }
  }

  /** A string comes back from JSON unchanged exactly when it is valid UTF-8. */
  lemma {:induction false} CoerceIsIdentityIff(b: bytes)
    ensures Coerce(b) == b <==> IsText(b)
  {
    hide RuneLen;
    CoerceGrows(b);
    if b != [] && IsText(b) {
      CoerceIsIdentityIff(b[RuneLen(b)..]);
      assert b[..RuneLen(b)] + b[RuneLen(b)..] == b;
    }
  }

  // ---------------------------------------------------------------- order

  /** Byte-wise string order, as Go compares strings. */
  predicate NameLess(a: Name, b: Name) {
    if b == [] then false
    else if a == [] then true
    else a[0] < b[0] || (a[0] == b[0] && NameLess(a[1..], b[1..]))
  }

  lemma {:induction false} NameLessTotal(a: Name, b: Name)
    ensures NameLess(a, b) || NameLess(b, a) || a == b
    ensures !(NameLess(a, b) && NameLess(b, a))
    ensures NameLess(a, b) ==> a != b
  {
    if a != [] && b != [] {
      NameLessTotal(a[1..], b[1..]);
      if a[0] == b[0] && a[1..] == b[1..] {
        assert a == [a[0]] + a[1..] == b;
      }
    }
  }

  lemma {:induction false} NameLessTransitive(a: Name, b: Name, c: Name)
    requires NameLess(a, b) && NameLess(b, c)
    ensures NameLess(a, c)
  {
    if a != [] && a[0] == b[0] == c[0] {
      NameLessTransitive(a[1..], b[1..], c[1..]);
    }
  }

  ghost predicate Ascending(ns: seq<Name>) {
    forall i, j :: 0 <= i < j < |ns| ==> NameLess(ns[i], ns[j])
  }

  /** ns lists the names of s in order. */
  ghost predicate ListsNames(s: set<Name>, ns: seq<Name>) {
    Ascending(ns) && forall n :: n in ns <==> n in s
  }

  function InsertName(ns: seq<Name>, n: Name): (r: seq<Name>)
    ensures forall x :: x in r <==> x in ns || x == n
  {
    if ns == [] then [n]
    else if NameLess(n, ns[0]) then [n] + ns
    else
      var r := [ns[0]] + InsertName(ns[1..], n);
      assert forall x :: x in ns <==> x == ns[0] || x in ns[1..];
      r
  }

  lemma {:induction false} InsertKeepsOrder(ns: seq<Name>, n: Name)
    requires Ascending(ns) && n !in ns
    ensures Ascending(InsertName(ns, n))
  {
    if ns != [] {
      NameLessTotal(n, ns[0]);
      if NameLess(n, ns[0]) {
        forall j | 0 < j < |ns| ensures NameLess(n, ns[j]) {
          NameLessTransitive(n, ns[0], ns[j]);
        }
      } else {
        InsertKeepsOrder(ns[1..], n);
        var r := InsertName(ns[1..], n);
        assert ns[0] in ns;
        forall x | x in r ensures NameLess(ns[0], x) {
          if x != n {
            assert x in ns[1..];
          }
        }
      }
    }
  }

  lemma {:induction false} AscendingUnique(ns: seq<Name>, ms: seq<Name>)
    requires Ascending(ns) && Ascending(ms)
    requires forall x :: x in ns <==> x in ms
    ensures ns == ms
  {
    if ns == [] {
      if ms != [] {
        HeadIsMember(ms);
        assert false;
      }
    } else {
      assert ns[0] in ms;
      assert ms[0] in ns;
      var i :| 0 <= i < |ms| && ms[i] == ns[0];
      var j :| 0 <= j < |ns| && ns[j] == ms[0];
      NameLessTotal(ns[0], ms[0]);
      assert ns[0] == ms[0];
      forall x ensures x in ns[1..] <==> x in ms[1..] {
        NameLessTotal(ns[0], x);
        if x in ns[1..] {
          var k :| 1 <= k < |ns| && ns[k] == x;
          assert NameLess(ns[0], x);
          assert x in ns;
        }
        if x in ms[1..] {
          var k :| 1 <= k < |ms| && ms[k] == x;
          assert NameLess(ms[0], x);
          assert x in ms;
        }
      }
      AscendingUnique(ns[1..], ms[1..]);
      assert ns == [ns[0]] + ns[1..];
    }
  }

  /** The names of s in order. */
  ghost function SortedNames(s: set<Name>): (ns: seq<Name>)
    decreases |s|
  {
    if s == {} then []
    else
      SomeName(s);
      var n :| n in s;
      InsertName(SortedNames(s - {n}), n)
  }

  lemma SomeName(s: set<Name>)
    requires s != {}
    ensures exists n: Name :: n in s
  {
    assert (forall n: Name :: n !in s) ==> s == {};
  }

  lemma {:induction false} SortedNamesLists(s: set<Name>)
    ensures ListsNames(s, SortedNames(s))
    decreases |s|
  {
    if s != {} {
      SomeName(s);
      var n :| n in s && SortedNames(s) == InsertName(SortedNames(s - {n}), n);
      SortedNamesLists(s - {n});
      InsertKeepsOrder(SortedNames(s - {n}), n);
    }
  }

  /** There is one such list. */
  lemma ListIsUnique(s: set<Name>, ns: seq<Name>)
    ensures ListsNames(s, ns) <==> ns == SortedNames(s)
  {
    SortedNamesLists(s);
    if ListsNames(s, ns) {
      AscendingUnique(ns, SortedNames(s));
    }
  }

  lemma NoNameTwice(ns: seq<Name>)
    requires Ascending(ns)
    ensures forall i, j :: 0 <= i < j < |ns| ==> ns[i] != ns[j]
  {
    forall i, j | 0 <= i < j < |ns| ensures ns[i] != ns[j] {
      NameLessTotal(ns[i], ns[j]);
    }
  }

  /** The keys of a map, gathered in any order and put in name order. */
  method ListNames(names: set<Name>) returns (ns: seq<Name>)
    ensures ns == SortedNames(names)
  {
    ns := [];
    var rest := names;
    while rest != {}
      invariant rest <= names && ListsNames(names - rest, ns)
      decreases |rest|
    {
      SomeName(rest);
      var n: Name :| n in rest;
      InsertKeepsOrder(ns, n);
      ns := InsertName(ns, n);
      rest := rest - {n};
    }
    ListIsUnique(names - rest, ns);
    assert names - {} == names;
  }
}
