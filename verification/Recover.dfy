/**
 Salvaging a damaged data file: a scan that decodes a page wherever it can, keeps the acceptable ones byte for
 byte, and resynchronises one byte at a time everywhere else.
 */
module Recover {
  import opened Prelude
  import opened Bytes
  import opened Frames
  import opened Codec
  import opened Samples
  import opened DataPages
  import opened Recompact

  /** The partition under recovery and the function that assigns times to partitions. */
  datatype Target = Target(part: Timestamp -> Part, p: Part)

  /** The page at the head of b, when one decodes there and passes the checks. */
  function GoodPage(codec: Codec, b: bytes): (r: Option<(Stored, nat)>)
    ensures r.Some? ==> HEADER_SIZE < r.value.1 <= |b|
  {
    match DecodeFrame(codec, b)
    case Err(_) => None
    case Ok((page, n)) => if Consistent(page) then Some((page, n)) else None
  }

  /** The accept rule: not empty, inside the partition, and ending later than every page accepted before. */
  predicate Accepts(t: Target, page: Stored, last: Option<Timestamp>) {
    && page.samples != []
    && t.part(page.start) == t.p && t.part(page.end) == t.p
    && (last.Some? ==> page.end > last.value)
  }

  /** What becomes of each stretch of the file. */
  datatype Piece = Kept(raw: bytes, page: Stored) | Rejected(raw: bytes) | Skipped(raw: bytes)

  function Pieces(codec: Codec, t: Target, b: bytes, last: Option<Timestamp>): (ps: seq<Piece>)
    decreases |b|
  {
    if b == [] then []
    else
      match GoodPage(codec, b)
      case None => [Skipped(b[..1])] + Pieces(codec, t, b[1..], last)
      case Some((page, n)) =>
        if Accepts(t, page, last) then [Kept(b[..n], page)] + Pieces(codec, t, b[n..], Some(page.end))
        else [Rejected(b[..n])] + Pieces(codec, t, b[n..], last)
  }

  function Raws(ps: seq<Piece>): (b: bytes) {
    if ps == [] then [] else ps[0].raw + Raws(ps[1..])
  }

  function KeptPages(ps: seq<Piece>): (r: seq<Stored>) {
    if ps == [] then [] else (if ps[0].Kept? then [ps[0].page] else []) + KeptPages(ps[1..])
  }

  /** The recovered file: the kept stretches, byte for byte. */
  function Output(ps: seq<Piece>): (b: bytes) {
    if ps == [] then [] else (if ps[0].Kept? then ps[0].raw else []) + Output(ps[1..])
  }

  function SkippedBytes(ps: seq<Piece>): nat {
    if ps == [] then 0 else (if ps[0].Skipped? then |ps[0].raw| else 0) + SkippedBytes(ps[1..])
  }

  function RejectedBytes(ps: seq<Piece>): nat {
    if ps == [] then 0 else (if ps[0].Rejected? then |ps[0].raw| else 0) + RejectedBytes(ps[1..])
  }

  /** What one more piece at the front adds. */
  lemma PieceAdds(h: Piece, ps: seq<Piece>)
    ensures var all := [h] + ps;
            && Output(all) == (if h.Kept? then h.raw + Output(ps) else Output(ps))
            && KeptPages(all) == (if h.Kept? then [h.page] + KeptPages(ps) else KeptPages(ps))
            && SkippedBytes(all) == SkippedBytes(ps) + (if h.Skipped? then |h.raw| else 0)
            && RejectedBytes(all) == RejectedBytes(ps) + (if h.Rejected? then |h.raw| else 0)
  {
    assert ([h] + ps)[1..] == ps;
  }

  /** Recovery accounts for every byte: the pieces are the file, and kept, rejected and skipped sizes add up to it. */
  lemma {:induction false} EveryByteAccounted(codec: Codec, t: Target, b: bytes, last: Option<Timestamp>)
    ensures var ps := Pieces(codec, t, b, last);
            Raws(ps) == b && |Output(ps)| + RejectedBytes(ps) + SkippedBytes(ps) == |b|
    decreases |b|
  {
    hide GoodPage, Accepts;
    if b != [] {
      match GoodPage(codec, b)
      case None =>
        EveryByteAccounted(codec, t, b[1..], last);
        assert b == b[..1] + b[1..];
      case Some((page, n)) =>
        EveryByteAccounted(codec, t, b[n..], if Accepts(t, page, last) then Some(page.end) else last);
        assert b == b[..n] + b[n..];
    }
  }

  /** The kept pages are acceptable, and end at strictly increasing times. */
  ghost predicate Rising(t: Target, pages: seq<Stored>, last: Option<Timestamp>) {
    && (forall i :: 0 <= i < |pages| ==> Accepts(t, pages[i], last) && Consistent(pages[i]))
    && (forall i, j :: 0 <= i < j < |pages| ==> pages[i].end < pages[j].end)
  }

  lemma {:induction false} KeptAreRising(codec: Codec, t: Target, b: bytes, last: Option<Timestamp>)
    ensures Rising(t, KeptPages(Pieces(codec, t, b, last)), last)
    decreases |b|
  {
    hide DecodeFrame, Consistent;
    if b != [] {
      match GoodPage(codec, b)
      case None => KeptAreRising(codec, t, b[1..], last);
      case Some((page, n)) =>
        if Accepts(t, page, last) {
          KeptAreRising(codec, t, b[n..], Some(page.end));
          RisingCons(t, page, KeptPages(Pieces(codec, t, b[n..], Some(page.end))), last);
        } else {
          KeptAreRising(codec, t, b[n..], last);
        }
    }
  }

  lemma RisingCons(t: Target, page: Stored, pages: seq<Stored>, last: Option<Timestamp>)
    requires Accepts(t, page, last) && Consistent(page) && Rising(t, pages, Some(page.end))
    ensures Rising(t, [page] + pages, last)
  {
    hide Consistent;
    var all := [page] + pages;
    forall i | 0 <= i < |all| ensures Accepts(t, all[i], last) && Consistent(all[i]) {
      if i > 0 {
        assert Accepts(t, pages[i - 1], Some(page.end)) && Consistent(pages[i - 1]);
      }
    }
    forall i, j | 0 <= i < j < |all| ensures all[i].end < all[j].end {
      assert Accepts(t, pages[j - 1], Some(page.end));
    }
  }

  /** When partitions are intervals of time, every kept sample belongs to the partition under recovery. */
  lemma KeptSamplesBelong(t: Target, page: Stored, last: Option<Timestamp>, s: Sample)
    requires forall x: Timestamp, y: Timestamp :: x <= y ==> t.part(x) <= t.part(y)
    requires Accepts(t, page, last) && Consistent(page) && s in page.samples
    ensures t.part(s.ts) == t.p
  {
    ConsistentIff(page);
    var i :| 0 <= i < |page.samples| && page.samples[i] == s;
    assert page.start <= s.ts <= page.end;
  }

  // ---------------------------------------------------------------- scanning the output again

  lemma GoodPageLocal(codec: Codec, b: bytes, c: bytes)
    requires GoodPage(codec, b).Some?
    requires GoodPage(codec, b).value.1 <= |c| && c[..GoodPage(codec, b).value.1] == b[..GoodPage(codec, b).value.1]
    ensures GoodPage(codec, c) == GoodPage(codec, b)
  {
    hide DecodeFrame, Consistent;
    DecodeLocal(codec, b, c);
  }

  /** The pieces of a file that starts with an acceptable page. */
  lemma StartsWithPage(codec: Codec, t: Target, b: bytes, n: nat, page: Stored, last: Option<Timestamp>)
    requires n <= |b| && GoodPage(codec, b) == Some((page, n)) && Accepts(t, page, last)
    ensures var ps, qs := Pieces(codec, t, b, last), Pieces(codec, t, b[n..], Some(page.end));
            && ps == [Kept(b[..n], page)] + qs
            && Output(ps) == b[..n] + Output(qs) && KeptPages(ps) == [page] + KeptPages(qs)
            && SkippedBytes(ps) == SkippedBytes(qs) && RejectedBytes(ps) == RejectedBytes(qs)
  {
    hide GoodPage, Accepts;
    PieceAdds(Kept(b[..n], page), Pieces(codec, t, b[n..], Some(page.end)));
  }

  ghost predicate AllKept(ps: seq<Piece>) {
    forall i :: 0 <= i < |ps| ==> ps[i].Kept?
  }

  /** b reads, page by page and piece by piece, as the given pages. */
  ghost predicate ReadsClean(codec: Codec, t: Target, b: bytes, pages: seq<Stored>, last: Option<Timestamp>) {
    var ps := Pieces(codec, t, b, last);
    && AllKept(ps) && KeptPages(ps) == pages && Output(ps) == b
    && ReadPages(codec, b) == Scanned(pages, (), |b|)
  }

  lemma ReadsCleanCons(codec: Codec, t: Target, raw: bytes, page: Stored, b: bytes, pages: seq<Stored>, last: Option<Timestamp>)
    requires GoodPage(codec, raw + b) == Some((page, |raw|)) && Accepts(t, page, last)
    requires ReadsClean(codec, t, b, pages, Some(page.end))
    ensures ReadsClean(codec, t, raw + b, [page] + pages, last)
  {
    hide GoodPage, Accepts, PageStep, Pieces, Output, KeptPages;
    var out := raw + b;
    assert out[..|raw|] == raw && out[|raw|..] == b;
    StartsWithPage(codec, t, out, |raw|, page, last);
    GoodPageSteps(codec, out);
  }

  /** Recovering a recovered file keeps all of it, and it reads page by page as the kept pages. */
  lemma {:induction false} OutputIsClean(codec: Codec, t: Target, b: bytes, last: Option<Timestamp>)
    ensures var ps := Pieces(codec, t, b, last);
            ReadsClean(codec, t, Output(ps), KeptPages(ps), last)
    decreases |b|
  {
    if b == [] {
      NoBytesStop(codec);
    } else {
      hide GoodPage, Accepts, ReadsClean, Output, KeptPages;
      match GoodPage(codec, b)
      case None =>
        OutputIsClean(codec, t, b[1..], last);
        PieceAdds(Skipped(b[..1]), Pieces(codec, t, b[1..], last));
      case Some((page, n)) =>
        if Accepts(t, page, last) {
          var rest := Pieces(codec, t, b[n..], Some(page.end));
          OutputIsClean(codec, t, b[n..], Some(page.end));
          StartsWithPage(codec, t, b, n, page, last);
          var out := b[..n] + Output(rest);
          assert out[..n] == b[..n];
          GoodPageLocal(codec, b, out);
          ReadsCleanCons(codec, t, b[..n], page, Output(rest), KeptPages(rest), last);
        } else {
          OutputIsClean(codec, t, b[n..], last);
          PieceAdds(Rejected(b[..n]), Pieces(codec, t, b[n..], last));
        }
    }
  }

  lemma GoodPageSteps(codec: Codec, b: bytes)
    requires GoodPage(codec, b).Some?
    ensures Stepper(codec)(b, ()) == More(GoodPage(codec, b).value.0, (), GoodPage(codec, b).value.1)
  {
    hide DecodeFrame;
  }

  /** The recovered file can always be rewritten, and the rewrite holds exactly the recovered samples. */
  lemma RecoveredAlwaysRecompacts(codec: Codec, t: Target, b: bytes, lim: Limits)
    ensures var ps := Pieces(codec, t, b, None);
            && Recompacted(codec, Output(ps), lim).Ok?
            && Recompacted(codec, Output(ps), lim).value.0
               == FileBytes(codec, Repack(SamplesOf(KeptPages(ps)), Capacity(lim)))
  {
    hide Pieces, ReadPages, Repack, Output, KeptPages;
    OutputIsClean(codec, t, b, None);
  }

  // ---------------------------------------------------------------- clean and damaged files

  /** Every page is one the accept rule takes after the pages before it. */
  ghost predicate CleanFile(codec: Codec, t: Target, pages: seq<Page>) {
    && AllWritable(codec, pages)
    && (forall i :: 0 <= i < |pages| ==> pages[i] != [] && t.part(pages[i][0].ts) == t.p && t.part(EndOf(pages[i])) == t.p)
    && (forall i, j :: 0 <= i < j < |pages| ==> EndOf(pages[i]) < EndOf(pages[j]))
  }

  lemma FirstPage(codec: Codec, t: Target, pages: seq<Page>, last: Option<Timestamp>, rest: bytes)
    requires codec.Lossless() && CleanFile(codec, t, pages) && pages != []
    requires last.Some? ==> EndOf(pages[0]) > last.value
    ensures var f := Frame(codec, pages[0]);
            var b := f + rest;
            && GoodPage(codec, b) == Some((StoredOf(pages[0]), |f|)) && Accepts(t, StoredOf(pages[0]), last)
            && b[..|f|] == f && b[|f|..] == rest && f != []
  {
    hide DecodeFrame, Frame;
    FrameRoundTrip(codec, pages[0], rest);
    ConsistentIff(StoredOf(pages[0]));
  }

  lemma CleanTail(codec: Codec, t: Target, pages: seq<Page>)
    requires CleanFile(codec, t, pages) && pages != []
    ensures CleanFile(codec, t, pages[1..])
    ensures |pages| > 1 ==> EndOf(pages[1]) > EndOf(pages[0])
  {
    var rest := pages[1..];
    forall i | 0 <= i < |rest| ensures Writable(codec, rest[i]) && InOrder(rest[i]) {
      assert rest[i] == pages[i + 1];
    }
  }

  /** Scanning b and then the rest keeps exactly b, as the given pages, and what scanning the rest keeps. */
  ghost predicate KeepsAll(
    codec: Codec, t: Target, b: bytes, pages: seq<Stored>, last: Option<Timestamp>, rest: bytes, end: Option<Timestamp>) {
    var ps, qs := Pieces(codec, t, b + rest, last), Pieces(codec, t, rest, end);
    && Output(ps) == b + Output(qs) && KeptPages(ps) == pages + KeptPages(qs)
    && RejectedBytes(ps) == RejectedBytes(qs) && SkippedBytes(ps) == SkippedBytes(qs)
  }

  lemma KeepsBoth(
    codec: Codec, t: Target, a: bytes, ps: seq<Stored>, b: bytes, qs: seq<Stored>,
    last: Option<Timestamp>, mid: Option<Timestamp>, rest: bytes, end: Option<Timestamp>)
    requires KeepsAll(codec, t, a, ps, last, b + rest, mid) && KeepsAll(codec, t, b, qs, mid, rest, end)
    ensures KeepsAll(codec, t, a + b, ps + qs, last, rest, end)
  {
    hide Pieces, Output, KeptPages, SkippedBytes, RejectedBytes;
    Regroup(a, b, rest);
    Regroup(a, b, Output(Pieces(codec, t, rest, end)));
  }

  /** The first frame of a clean run is kept. */
  lemma FirstIsKept(codec: Codec, t: Target, pages: seq<Page>, last: Option<Timestamp>, rest: bytes)
    requires codec.Lossless() && CleanFile(codec, t, pages) && pages != []
    requires last.Some? ==> EndOf(pages[0]) > last.value
    ensures KeepsAll(codec, t, Frame(codec, pages[0]), [StoredOf(pages[0])], last, rest, Some(EndOf(pages[0])))
  {
    hide Frame, GoodPage, Accepts, Pieces, Output, KeptPages, SkippedBytes, RejectedBytes, AllWritable;
    var f := Frame(codec, pages[0]);
    FirstPage(codec, t, pages, last, rest);
    StartsWithPage(codec, t, f + rest, |f|, StoredOf(pages[0]), last);
  }

  ghost function EndAfter(pages: seq<Page>, last: Option<Timestamp>): Option<Timestamp>
    requires forall i :: 0 <= i < |pages| ==> pages[i] != []
  {
    if pages == [] then last else Some(EndOf(pages[|pages| - 1]))
  }

  /** A clean run of frames is kept whole, whatever follows it. */
  lemma {:induction false} CleanRunIsKept(codec: Codec, t: Target, pages: seq<Page>, last: Option<Timestamp>, rest: bytes)
    requires codec.Lossless() && CleanFile(codec, t, pages)
    requires pages != [] && last.Some? ==> EndOf(pages[0]) > last.value
    ensures KeepsAll(codec, t, FileBytes(codec, pages), StoredAll(pages), last, rest, EndAfter(pages, last))
    decreases |pages|
  {
    if pages == [] {
      NoFrames(FrameEncoder(codec));
      assert FileBytes(codec, pages) + rest == rest;
    } else {
      hide Frame, AllWritable, StoredOf, KeepsAll, Concat, StoredAll, CleanFile, FrameEncoder;
      CleanNonEmpty(codec, t, pages);
      var mid := Some(EndOf(pages[0]));
      var tail := FileBytes(codec, pages[1..]);
      CleanTail(codec, t, pages);
      FirstIsKept(codec, t, pages, last, tail + rest);
      CleanRunIsKept(codec, t, pages[1..], mid, rest);
      KeepsBoth(codec, t, Frame(codec, pages[0]), [StoredOf(pages[0])], tail, StoredAll(pages[1..]),
                last, mid, rest, EndAfter(pages, last));
      FirstFrame(FrameEncoder(codec), pages, []);
      StoredAllCons(pages);
    }
  }

  lemma StoredAllCons(pages: seq<Page>)
    requires pages != [] && forall i :: 0 <= i < |pages| ==> pages[i] != []
    ensures StoredAll(pages) == [StoredOf(pages[0])] + StoredAll(pages[1..])
  {
    hide StoredOf;
  }

  lemma CleanNonEmpty(codec: Codec, t: Target, pages: seq<Page>)
    requires CleanFile(codec, t, pages)
    ensures forall i :: 0 <= i < |pages| ==> pages[i] != []
  {
  }

  /** A clean accepted file is returned byte for byte. */
  lemma CleanFileIsIdentity(codec: Codec, t: Target, pages: seq<Page>)
    requires codec.Lossless() && CleanFile(codec, t, pages)
    ensures var ps := Pieces(codec, t, FileBytes(codec, pages), None);
            && Output(ps) == FileBytes(codec, pages) && RejectedBytes(ps) == 0 && SkippedBytes(ps) == 0
            && KeptPages(ps) == StoredAll(pages)
  {
    CleanRunIsKept(codec, t, pages, None, []);
    assert FileBytes(codec, pages) + [] == FileBytes(codec, pages);
  }

  /** No page decodes anywhere inside the damaged stretch g, also not one that runs on into what follows. */
  ghost predicate Damaged(codec: Codec, g: bytes, rest: bytes) {
    forall k :: 0 <= k < |g| ==> GoodPage(codec, g[k..] + rest) == None
  }

  lemma {:induction false} DamageIsSkipped(codec: Codec, t: Target, g: bytes, rest: bytes, last: Option<Timestamp>)
    requires Damaged(codec, g, rest)
    ensures var ps, qs := Pieces(codec, t, g + rest, last), Pieces(codec, t, rest, last);
            && Output(ps) == Output(qs) && KeptPages(ps) == KeptPages(qs)
            && RejectedBytes(ps) == RejectedBytes(qs) && SkippedBytes(ps) == |g| + SkippedBytes(qs)
    decreases |g|
  {
    if g == [] {
      assert g + rest == rest;
    } else {
      hide GoodPage, Accepts, Output, KeptPages, SkippedBytes, RejectedBytes;
      assert GoodPage(codec, g[0..] + rest) == None && g[0..] == g;
      var tail := g[1..];
      forall k | 0 <= k < |tail| ensures GoodPage(codec, tail[k..] + rest) == None {
        assert tail[k..] == g[k + 1..];
      }
      DamageIsSkipped(codec, t, tail, rest, last);
      assert (g + rest)[1..] == tail + rest;
      PieceAdds(Skipped((g + rest)[..1]), Pieces(codec, t, tail + rest, last));
    }
  }

  /**
   Damage in the middle of a clean file costs exactly the damaged stretch: the frames before and after it are
   all recovered, in order, byte for byte.
   */
  lemma DamageIsIsolated(codec: Codec, t: Target, before: seq<Page>, g: bytes, after: seq<Page>)
    requires codec.Lossless() && CleanFile(codec, t, before) && CleanFile(codec, t, after)
    requires before != [] && after != [] ==> EndOf(before[|before| - 1]) < EndOf(after[0])
    requires Damaged(codec, g, FileBytes(codec, after))
    ensures var ps := Pieces(codec, t, FileBytes(codec, before) + (g + FileBytes(codec, after)), None);
            && Output(ps) == FileBytes(codec, before) + FileBytes(codec, after)
            && KeptPages(ps) == StoredAll(before) + StoredAll(after)
            && SkippedBytes(ps) == |g| && RejectedBytes(ps) == 0
  {
    var tail := FileBytes(codec, after);
    var end := if before == [] then None else Some(EndOf(before[|before| - 1]));
    CleanRunIsKept(codec, t, before, None, g + tail);
    DamageIsSkipped(codec, t, g, tail, end);
    CleanRunIsKept(codec, t, after, end, []);
    assert tail + [] == tail;
  }
}
