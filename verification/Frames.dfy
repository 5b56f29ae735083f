/**
 Files made of self-delimiting frames: the concatenation of the encodings of a list of items.
 The encoder is a parameter, so these facts serve the logs and the page files alike.
 */
module Frames {
  import opened Prelude
  import opened Bytes

  function Concat<T>(f: T -> bytes, ts: seq<T>): (b: bytes) {
    if ts == [] then [] else Concat(f, ts[..|ts| - 1]) + f(ts[|ts| - 1])
  }

  lemma ConcatSnoc<T>(f: T -> bytes, ts: seq<T>, t: T)
    ensures Concat(f, ts + [t]) == Concat(f, ts) + f(t)
  {
    assert (ts + [t])[..|ts|] == ts;
  }

  lemma {:induction false} ConcatAppend<T>(f: T -> bytes, ts: seq<T>, us: seq<T>)
    ensures Concat(f, ts + us) == Concat(f, ts) + Concat(f, us)
    decreases |us|
  {
    if us == [] {
      assert ts + us == ts;
    } else {
      var init, last := us[..|us| - 1], us[|us| - 1];
      assert ts + us == (ts + init) + [last];
      ConcatSnoc(f, ts + init, last);
      ConcatAppend(f, ts, init);
    }
  }

  lemma ConcatCons<T>(f: T -> bytes, t: T, ts: seq<T>)
    ensures Concat(f, [t]) == f(t)
    ensures Concat(f, [t] + ts) == f(t) + Concat(f, ts)
  {
    assert [t] == [] + [t];
    ConcatSnoc(f, [], t);
    ConcatAppend(f, [t], ts);
  }

  lemma {:induction false} FixedWidth<T>(f: T -> bytes, ts: seq<T>, k: nat)
    requires forall t :: |f(t)| == k
    ensures |Concat(f, ts)| == k * |ts|
  {
    if ts == [] {
      assert k * 0 == 0;
    } else {
      FixedWidth(f, ts[..|ts| - 1], k);
      assert k * |ts| == k * (|ts| - 1) + k;
    }
  }

  /** Where the i-th of equally long pieces lies. */
  lemma FixedAt<T>(f: T -> bytes, ts: seq<T>, k: nat, i: nat)
    requires (forall t :: |f(t)| == k) && i < |ts|
    ensures k * i + k <= |Concat(f, ts)| && Sub(Concat(f, ts), k * i, k) == f(ts[i])
  {
    var pre, rest := ts[..i], ts[i + 1..];
    assert ts == (pre + [ts[i]]) + rest;
    ConcatAppend(f, pre + [ts[i]], rest);
    ConcatSnoc(f, pre, ts[i]);
    FixedWidth(f, pre, k);
    hide Concat;
  }

  /** How many whole frames the first k bytes hold. */
  ghost function Whole<T>(f: T -> bytes, ts: seq<T>, k: nat): (m: nat)
    ensures m <= |ts|
  {
    if ts == [] then 0
    else if |f(ts[0])| > k then 0
    else 1 + Whole(f, ts[1..], k - |f(ts[0])|)
  }

  /** Whole counts the longest run of frames that fits in k bytes. */
  lemma {:induction false} WholeIsLongest<T>(f: T -> bytes, ts: seq<T>, k: nat)
    ensures var m := Whole(f, ts, k);
            && |Concat(f, ts[..m])| <= k
            && (m < |ts| ==> |Concat(f, ts[..m + 1])| > k)
  {
    if ts != [] {
      var m := Whole(f, ts, k);
      if m == 0 {
        assert ts[..1] == [ts[0]];
        ConcatCons(f, ts[0], []);
      } else {
        WholeIsLongest(f, ts[1..], k - |f(ts[0])|);
        assert ts[..m] == [ts[0]] + ts[1..][..m - 1];
        ConcatCons(f, ts[0], ts[1..][..m - 1]);
        if m < |ts| {
          assert ts[..m + 1] == [ts[0]] + ts[1..][..m];
          ConcatCons(f, ts[0], ts[1..][..m]);
        }
      }
    }
  }

  // ---------------------------------------------------------------- scanning

  /** What a reader makes of the bytes at its position: nothing more to read, an error, or one item. */
  datatype Step<S, D, E> = Stop | Fail(error: E) | More(item: D, state: S, used: nat)

  datatype Scanned<S, D, E> = Scanned(items: seq<D>, state: S, used: nat) | Failed(error: E)

  /** Repeats a reading step until it stops. */
  function ScanWith<S, D, E>(step: (bytes, S) -> Step<S, D, E>, b: bytes, s: S): (r: Scanned<S, D, E>)
    decreases |b|
  {
    match step(b, s)
    case Stop => Scanned([], s, 0)
    case Fail(e) => Failed(e)
    case More(d, s', n) =>
      if n == 0 || n > |b| then Scanned([], s, 0)
      else
        match ScanWith(step, b[n..], s')
        case Failed(e) => Failed(e)
        case Scanned(ds, s'', k) => Scanned([d] + ds, s'', n + k)
  }

  /** step reads t back, whatever bytes follow it. */
  ghost predicate ReadsWhole<T, S, D, E>(f: T -> bytes, step: (bytes, S) -> Step<S, D, E>, t: T, s: S, d: D, s': S) {
    && |f(t)| > 0
    && (forall rest: bytes :: step(f(t) + rest, s) == More(d, s', |f(t)|))
  }

  /** step reads t back, and stops on any cut of it. */
  ghost predicate Reads<T, S, D, E>(f: T -> bytes, step: (bytes, S) -> Step<S, D, E>, t: T, s: S, d: D, s': S) {
    && ReadsWhole(f, step, t, s, d, s')
    && (forall k :: 0 <= k < |f(t)| ==> step(f(t)[..k], s) == Stop)
  }

  /** Each of ts reads back, and any cut of it stops the reader. */
  ghost predicate AllCut<T, S, D, E>(
    f: T -> bytes, step: (bytes, S) -> Step<S, D, E>, ts: seq<T>, ss: seq<S>, ds: seq<D>)
    requires |ss| == |ts| + 1 && |ds| == |ts|
  {
    forall i :: 0 <= i < |ts| ==> Reads(f, step, ts[i], ss[i], ds[i], ss[i + 1])
  }

  lemma AllCutTail<T, S, D, E>(
    f: T -> bytes, step: (bytes, S) -> Step<S, D, E>, ts: seq<T>, ss: seq<S>, ds: seq<D>)
    requires |ss| == |ts| + 1 && |ds| == |ts| && ts != [] && AllCut(f, step, ts, ss, ds)
    ensures AllCut(f, step, ts[1..], ss[1..], ds[1..]) && Reads(f, step, ts[0], ss[0], ds[0], ss[1])
  {
    hide Reads;
    var us, ss', ds' := ts[1..], ss[1..], ds[1..];
    forall i | 0 <= i < |us| ensures Reads(f, step, us[i], ss'[i], ds'[i], ss'[i + 1]) {
      assert Reads(f, step, ts[i + 1], ss[i + 1], ds[i + 1], ss[i + 2]);
    }
  }

  lemma PrefixAfterFirst<T>(f: T -> bytes, ts: seq<T>, k: nat)
    requires ts != [] && |f(ts[0])| <= k <= |Concat(f, ts)|
    ensures k - |f(ts[0])| <= |Concat(f, ts[1..])|
    ensures var tail := Concat(f, ts[1..])[..k - |f(ts[0])|];
            Concat(f, ts)[..k] == f(ts[0]) + tail && Concat(f, ts)[..k][|f(ts[0])|..] == tail
  {
    FirstFrame(f, ts, []);
    hide Concat;
    var a, b := f(ts[0]), Concat(f, ts[1..]);
    assert (a + b)[..k] == a + b[..k - |a|];
  }

  /**
   Scanning the first k bytes of a file gives exactly the frames that are whole in them, in order, and
   stops at the cut.
   */
  lemma {:induction false} ScanOfFrames<T, S, D, E>(
    f: T -> bytes, step: (bytes, S) -> Step<S, D, E>, ts: seq<T>, ss: seq<S>, ds: seq<D>, k: nat)
    requires |ss| == |ts| + 1 && |ds| == |ts| && AllCut(f, step, ts, ss, ds)
    requires step([], ss[|ts|]) == Stop
    requires k <= |Concat(f, ts)|
    ensures var m := Whole(f, ts, k);
            ScanWith(step, Concat(f, ts)[..k], ss[0]) == Scanned(ds[..m], ss[m], |Concat(f, ts[..m])|)
    decreases |ts|
  {
    hide Concat, AllCut;
    NoFrames(f);
    if ts == [] {
    } else if k < |f(ts[0])| {
      AllCutTail(f, step, ts, ss, ds);
      FirstFrame(f, ts, []);
      assert Concat(f, ts)[..k] == f(ts[0])[..k];
    } else {
      AllCutTail(f, step, ts, ss, ds);
      PrefixAfterFirst(f, ts, k);
      var k' := k - |f(ts[0])|;
      var m' := Whole(f, ts[1..], k');
      ScanOfFrames(f, step, ts[1..], ss[1..], ds[1..], k');
      assert step(f(ts[0]) + Concat(f, ts[1..])[..k'], ss[0]) == More(ds[0], ss[1], |f(ts[0])|);
      assert ts[..m' + 1][1..] == ts[1..][..m'];
      FirstFrame(f, ts[..m' + 1], []);
      assert ds[..m' + 1] == [ds[0]] + ds[1..][..m'];
    }
  }

  /** Reads exactly n items. */
  function ReadCount<S, D, E>(step: (bytes, S) -> Step<S, D, E>, b: bytes, n: nat, s: S): (r: Scanned<S, D, E>)
    ensures r.Scanned? ==> r.used <= |b|
    decreases n
  {
    if n == 0 then Scanned([], s, 0)
    else
      match step(b, s)
      case Stop => Scanned([], s, 0)
      case Fail(e) => Failed(e)
      case More(d, s', k) =>
        if k > |b| then Scanned([], s, 0)
        else
          match ReadCount(step, b[k..], n - 1, s')
          case Failed(e) => Failed(e)
          case Scanned(ds, s'', k') => Scanned([d] + ds, s'', k + k')
  }

  /** A nonempty file is its first frame and the rest. */
  lemma FirstFrame<T>(f: T -> bytes, ts: seq<T>, rest: bytes)
    requires ts != []
    ensures Concat(f, ts) == f(ts[0]) + Concat(f, ts[1..])
    ensures Concat(f, ts) + rest == f(ts[0]) + (Concat(f, ts[1..]) + rest)
    ensures (Concat(f, ts) + rest)[|f(ts[0])|..] == Concat(f, ts[1..]) + rest
    ensures Concat(f, ts)[|f(ts[0])|..] == Concat(f, ts[1..])
  {
    assert ts == [ts[0]] + ts[1..];
    ConcatCons(f, ts[0], ts[1..]);
    hide Concat;
    Regroup(f(ts[0]), Concat(f, ts[1..]), rest);
  }

  lemma Regroup(a: bytes, b: bytes, c: bytes)
    ensures (a + b) + c == a + (b + c)
    ensures (a + b)[|a|..] == b
    ensures (a + b + c)[|a|..] == b + c
  {
  }

  /** Each of ts reads back, passing from state to state. */
  ghost predicate AllRead<T, S, D, E>(
    f: T -> bytes, step: (bytes, S) -> Step<S, D, E>, ts: seq<T>, ss: seq<S>, ds: seq<D>)
    requires |ss| == |ts| + 1 && |ds| == |ts|
  {
    forall i :: 0 <= i < |ts| ==> ReadsWhole(f, step, ts[i], ss[i], ds[i], ss[i + 1])
  }

  lemma AllReadTail<T, S, D, E>(
    f: T -> bytes, step: (bytes, S) -> Step<S, D, E>, ts: seq<T>, ss: seq<S>, ds: seq<D>)
    requires |ss| == |ts| + 1 && |ds| == |ts| && ts != [] && AllRead(f, step, ts, ss, ds)
    ensures AllRead(f, step, ts[1..], ss[1..], ds[1..]) && ReadsWhole(f, step, ts[0], ss[0], ds[0], ss[1])
  {
    hide ReadsWhole;
    var us, ss', ds' := ts[1..], ss[1..], ds[1..];
    forall i | 0 <= i < |us| ensures ReadsWhole(f, step, us[i], ss'[i], ds'[i], ss'[i + 1]) {
      assert ReadsWhole(f, step, ts[i + 1], ss[i + 1], ds[i + 1], ss[i + 2]);
    }
  }

  /** Reading as many items as a file starts with gives those items. */
  lemma {:induction false} ReadCountOfFrames<T, S, D, E>(
    f: T -> bytes, step: (bytes, S) -> Step<S, D, E>, ts: seq<T>, ss: seq<S>, ds: seq<D>, rest: bytes)
    requires |ss| == |ts| + 1 && |ds| == |ts| && AllRead(f, step, ts, ss, ds)
    ensures ReadCount(step, Concat(f, ts) + rest, |ts|, ss[0]) == Scanned(ds, ss[|ts|], |Concat(f, ts)|)
    decreases |ts|
  {
    hide Concat, AllRead;
    if ts == [] {
      NoFrames(f);
    } else {
      AllReadTail(f, step, ts, ss, ds);
      FirstFrame(f, ts, rest);
      ReadCountOfFrames(f, step, ts[1..], ss[1..], ds[1..], rest);
      assert step(f(ts[0]) + (Concat(f, ts[1..]) + rest), ss[0]) == More(ds[0], ss[1], |f(ts[0])|);
      assert ds == [ds[0]] + ds[1..];
    }
  }

  lemma NoFrames<T>(f: T -> bytes)
    ensures Concat(f, []) == []
  {
  }

  /** A whole file scans to all its frames. */
  lemma {:induction false} ScanOfAllFrames<T, S, D, E>(
    f: T -> bytes, step: (bytes, S) -> Step<S, D, E>, ts: seq<T>, ss: seq<S>, ds: seq<D>)
    requires |ss| == |ts| + 1 && |ds| == |ts| && AllRead(f, step, ts, ss, ds)
    requires step([], ss[|ts|]) == Stop
    ensures ScanWith(step, Concat(f, ts), ss[0]) == Scanned(ds, ss[|ts|], |Concat(f, ts)|)
    decreases |ts|
  {
    hide Concat, AllRead;
    if ts == [] {
      NoFrames(f);
    } else {
      AllReadTail(f, step, ts, ss, ds);
      FirstFrame(f, ts, []);
      ScanOfAllFrames(f, step, ts[1..], ss[1..], ds[1..]);
      assert step(f(ts[0]) + Concat(f, ts[1..]), ss[0]) == More(ds[0], ss[1], |f(ts[0])|);
      assert ds == [ds[0]] + ds[1..];
    }
  }

  lemma {:induction false} WholeOfAll<T>(f: T -> bytes, ts: seq<T>)
    ensures Whole(f, ts, |Concat(f, ts)|) == |ts|
  {
    if ts != [] {
      assert ts == [ts[0]] + ts[1..];
      ConcatCons(f, ts[0], ts[1..]);
      WholeOfAll(f, ts[1..]);
    }
  }

  /** The outcome of a scan whose first `used` bytes gave `items`, when the rest gives r. */
  ghost function Resume<S, D, E>(items: seq<D>, used: nat, r: Scanned<S, D, E>): Scanned<S, D, E> {
    match r
    case Failed(e) => Failed(e)
    case Scanned(ds, s, k) => Scanned(items + ds, s, used + k)
  }

  /** One turn of a reading loop at position pos. */
  lemma ResumeTurn<S, D, E>(step: (bytes, S) -> Step<S, D, E>, b: bytes, pos: nat, s: S, items: seq<D>)
    requires pos <= |b|
    ensures var r := Resume(items, pos, ScanWith(step, b[pos..], s));
            match step(b[pos..], s)
            case Stop => r == Scanned(items, s, pos)
            case Fail(e) => r == Failed(e)
            case More(d, s', n) =>
              0 < n <= |b| - pos ==> r == Resume(items + [d], pos + n, ScanWith(step, b[pos + n..], s'))
  {
    match step(b[pos..], s)
    case Stop =>
    case Fail(_) =>
    case More(d, s', n) =>
      if 0 < n <= |b| - pos {
        assert b[pos..][n..] == b[pos + n..];
        match ScanWith(step, b[pos + n..], s')
        case Failed(_) =>
        case Scanned(ds, _, _) => assert items + ([d] + ds) == items + [d] + ds;
      }
  }
}
