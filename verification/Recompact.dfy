/**
 Rewriting a data file with full pages: the greedy repacking, what it keeps, and that no rewrite into pages
 within the limits needs fewer of them.
 */
module Recompact {
  import opened Prelude
  import opened Bytes
  import opened Frames
  import opened Codec
  import opened Samples
  import opened DataPages

  // ---------------------------------------------------------------- the packing

  /** How many samples a page holds when it is closed for size: 14 bytes a sample, at least one. */
  function Capacity(lim: Limits): (n: nat)
    ensures n >= 1
  {
    Min(lim.Records(), (lim.Bytes() + 13) / 14)
  }

  lemma ClosesAtCapacity(lim: Limits, n: nat)
    ensures (n >= lim.Records() || 14 * n >= lim.Bytes()) <==> n >= Capacity(lim)
  {
  }

  /** Samples one after another, a new page whenever the last one is closed or would go back in time. */
  function Repack(ss: Page, cap: nat): (pages: seq<Page>) {
    if ss == [] then [] else Extend(Repack(ss[..|ss| - 1], cap), ss[|ss| - 1], cap)
  }

  function Extend(pages: seq<Page>, s: Sample, cap: nat): (r: seq<Page>)
    ensures r != []
  {
    if pages == [] then [[s]]
    else
      var last := pages[|pages| - 1];
      if last == [] || |last| >= cap || s.ts < EndOf(last) then pages + [[s]]
      else pages[..|pages| - 1] + [last + [s]]
  }

  lemma RepackSnoc(ss: Page, s: Sample, cap: nat)
    ensures Repack(ss + [s], cap) == Extend(Repack(ss, cap), s, cap)
  {
    assert (ss + [s])[..|ss|] == ss;
  }

  /** A page within the limits, in time order. */
  ghost predicate Fits(page: Page, cap: nat) {
    page != [] && |page| <= cap && InOrder(page)
  }

  ghost predicate AllFit(pages: seq<Page>, cap: nat) {
    forall i :: 0 <= i < |pages| ==> Fits(pages[i], cap)
  }

  /** Repacking keeps the exact sample sequence. */
  lemma {:induction false} RepackKeeps(ss: Page, cap: nat)
    ensures Flatten(Repack(ss, cap)) == ss
  {
    if ss != [] {
      var init, s := ss[..|ss| - 1], ss[|ss| - 1];
      RepackKeeps(init, cap);
      var pages := Repack(init, cap);
      if pages == [] {
        FlattenSnoc<Sample>([], [s]);
      } else {
        var last := pages[|pages| - 1];
        FlattenSnoc(pages, [s]);
        FlattenSnoc(pages[..|pages| - 1], last + [s]);
        FlattenSnoc(pages[..|pages| - 1], last);
        assert pages == pages[..|pages| - 1] + [last];
      }
      assert ss == init + [s];
    }
  }

  /** Repacking makes every page time-ordered and within the limits. */
  lemma {:induction false} RepackFits(ss: Page, cap: nat)
    requires cap >= 1
    ensures AllFit(Repack(ss, cap), cap)
  {
    if ss != [] {
      RepackFits(ss[..|ss| - 1], cap);
      var pages := Repack(ss[..|ss| - 1], cap);
      if pages != [] {
        assert Fits(pages[|pages| - 1], cap);
      }
    }
  }

  /** pages cuts ss into consecutive runs that are within the limits. */
  ghost predicate Splits(pages: seq<Page>, ss: Page, cap: nat) {
    AllFit(pages, cap) && Flatten(pages) == ss
  }

  /** The shorter of two splits, or as long with no longer a last page. */
  ghost predicate NoBehind(ours: seq<Page>, theirs: seq<Page>) {
    || |ours| < |theirs|
    || (|ours| == |theirs| && (ours != [] && theirs != [] ==> |ours[|ours| - 1]| <= |theirs[|theirs| - 1]|))
  }

  /** Dropping the last sample of a split gives a split of the rest. */
  lemma DropLast(pages: seq<Page>, ss: Page, cap: nat)
    requires Splits(pages, ss, cap) && ss != []
    ensures pages != []
    ensures var init, last := pages[..|pages| - 1], pages[|pages| - 1];
            && last[|last| - 1] == ss[|ss| - 1]
            && (if |last| == 1 then Splits(init, ss[..|ss| - 1], cap)
                else
                  && Splits(init + [last[..|last| - 1]], ss[..|ss| - 1], cap)
                  && |ss| >= 2 && ss[|ss| - 2] == last[|last| - 2])
  {
    hide Flatten, InOrder, Fits;
    SplitNotEmpty(pages, ss, cap);
    var init, last := pages[..|pages| - 1], pages[|pages| - 1];
    assert pages == init + [last];
    FlattenSnoc(init, last);
    assert Fits(last, cap);
    assert ss == Flatten(init) + last;
    FitsLess(last, cap);
    var less := last[..|last| - 1];
    if |last| > 1 {
      FlattenSnoc(init, less);
      assert ss[..|ss| - 1] == Flatten(init) + less;
    } else {
      assert ss[..|ss| - 1] == Flatten(init);
    }
  }

  lemma SplitNotEmpty(pages: seq<Page>, ss: Page, cap: nat)
    requires Splits(pages, ss, cap) && ss != []
    ensures pages != []
  {
    assert Flatten<Sample>([]) == [];
  }

  lemma FitsLess(page: Page, cap: nat)
    requires Fits(page, cap)
    ensures page != [] && (|page| > 1 ==> Fits(page[..|page| - 1], cap))
  {
  }

  lemma RepackEnds(ss: Page, cap: nat)
    requires ss != []
    ensures var pages := Repack(ss, cap);
            pages != [] && pages[|pages| - 1] != [] && EndOf(pages[|pages| - 1]) == ss[|ss| - 1].ts
  {
  }

  /** The greedy packing never falls behind any other split of the same samples. */
  lemma {:induction false} GreedyStaysAhead(ss: Page, cap: nat, theirs: seq<Page>)
    requires cap >= 1 && Splits(theirs, ss, cap)
    ensures NoBehind(Repack(ss, cap), theirs)
    decreases |ss|
  {
    hide Flatten;
    if ss != [] {
      var init, s := ss[..|ss| - 1], ss[|ss| - 1];
      DropLast(theirs, ss, cap);
      var head, last := theirs[..|theirs| - 1], theirs[|theirs| - 1];
      if |last| == 1 {
        GreedyStaysAhead(init, cap, head);
      } else {
        assert Fits(last, cap);
        assert last[|last| - 2].ts <= last[|last| - 1].ts;
        GreedyStaysAhead(init, cap, head + [last[..|last| - 1]]);
        RepackEnds(init, cap);
      }
    }
  }

  /** Repacking uses the fewest pages of any split into consecutive time-ordered pages within the limits. */
  lemma RepackIsFewest(ss: Page, cap: nat, theirs: seq<Page>)
    requires cap >= 1 && Splits(theirs, ss, cap)
    ensures |Repack(ss, cap)| <= |theirs|
  {
    GreedyStaysAhead(ss, cap, theirs);
  }

  // ---------------------------------------------------------------- files

  /** The encoder of one frame; an empty page has none. */
  function FrameEncoder(codec: Codec): Page -> bytes {
    (page: Page) => if page == [] then [] else Frame(codec, page)
  }

  function FileBytes(codec: Codec, pages: seq<Page>): bytes {
    Concat(FrameEncoder(codec), pages)
  }

  /** One turn of the rewriting loop: decode the page at the head of b and check it. */
  function PageStep(codec: Codec, b: bytes): (r: Step<(), Stored, FrameError>) {
    if b == [] then Stop
    else
      match DecodeFrame(codec, b)
      case Err(e) => Fail(e)
      case Ok((p, n)) =>
        if p.samples == [] || Consistent(p) then More(p, (), n)
        else if p.start != p.samples[0].ts then Fail(StartMismatch)
        else if p.end != EndOf(p.samples) then Fail(EndMismatch)
        else Fail(Rollback)
  }

  function Stepper(codec: Codec): (bytes, ()) -> Step<(), Stored, FrameError> {
    (b: bytes, u: ()) => PageStep(codec, b)
  }

  /** The pages of a file, or the error that stops the rewrite. */
  function ReadPages(codec: Codec, b: bytes): (r: Scanned<(), Stored, FrameError>) {
    ScanWith(Stepper(codec), b, ())
  }

  function SamplesOf(ps: seq<Stored>): (ss: Page) {
    if ps == [] then [] else SamplesOf(ps[..|ps| - 1]) + ps[|ps| - 1].samples
  }

  /** recompactDataFileBlob: the new file and its frame count. */
  function Recompacted(codec: Codec, b: bytes, lim: Limits): (r: Result<(bytes, nat), FrameError>) {
    match ReadPages(codec, b)
    case Failed(e) => Err(e)
    case Scanned(ps, _, _) =>
      var pages := Repack(SamplesOf(ps), Capacity(lim));
      Ok((FileBytes(codec, pages), |pages|))
  }

  ghost predicate AllWritable(codec: Codec, pages: seq<Page>) {
    forall i :: 0 <= i < |pages| ==> Writable(codec, pages[i]) && InOrder(pages[i])
  }

  function StoredAll(pages: seq<Page>): (ps: seq<Stored>)
    requires forall i :: 0 <= i < |pages| ==> pages[i] != []
    ensures |ps| == |pages|
  {
    seq(|pages|, i requires 0 <= i < |pages| => StoredOf(pages[i]))
  }

  lemma {:induction false} SamplesOfStored(pages: seq<Page>)
    requires forall i :: 0 <= i < |pages| ==> pages[i] != []
    ensures SamplesOf(StoredAll(pages)) == Flatten(pages)
  {
    if pages == [] {
      assert Flatten<Sample>([]) == [];
    } else {
      var init := pages[..|pages| - 1];
      assert pages == init + [pages[|pages| - 1]];
      FlattenSnoc(init, pages[|pages| - 1]);
      SamplesOfStored(init);
      assert StoredAll(pages)[..|pages| - 1] == StoredAll(init);
    }
  }

  lemma FrameReads(codec: Codec, page: Page)
    requires codec.Lossless() && Writable(codec, page) && InOrder(page)
    ensures ReadsWhole(FrameEncoder(codec), Stepper(codec), page, (), StoredOf(page), ())
  {
    hide DecodeFrame, Frame;
    ConsistentIff(StoredOf(page));
    forall rest: bytes
      ensures Stepper(codec)(FrameEncoder(codec)(page) + rest, ()) == More(StoredOf(page), (), |Frame(codec, page)|)
    {
      FrameRoundTrip(codec, page, rest);
    }
    FrameRoundTrip(codec, page, []);
    assert Frame(codec, page) + [] == Frame(codec, page);
  }

  /** A file of written pages reads back as those pages. */
  lemma ReadPagesOfFile(codec: Codec, pages: seq<Page>)
    requires codec.Lossless() && AllWritable(codec, pages)
    ensures ReadPages(codec, FileBytes(codec, pages)) == Scanned(StoredAll(pages), (), |FileBytes(codec, pages)|)
  {
    hide FrameEncoder, PageStep, Concat, ReadsWhole, Writable;
    var ss: seq<()> := seq(|pages| + 1, _ => ());
    assert forall i :: 0 <= i < |pages| ==> pages[i] != [] by {
      WritableNonEmpty(codec, pages);
    }
    var ds := StoredAll(pages);
    forall i | 0 <= i < |pages|
      ensures ReadsWhole(FrameEncoder(codec), Stepper(codec), pages[i], ss[i], ds[i], ss[i + 1])
    {
      FrameReads(codec, pages[i]);
    }
    assert AllRead(FrameEncoder(codec), Stepper(codec), pages, ss, ds);
    NoBytesStop(codec);
    ScanOfAllFrames(FrameEncoder(codec), Stepper(codec), pages, ss, ds);
  }

  /** Pages in time order whose samples fit their fields: pages the engine writes, but for their length. */
  ghost predicate Encodable(page: Page) {
    page != [] && InOrder(page) && AllValid(page)
  }

  ghost predicate AllEncodable(pages: seq<Page>) {
    forall i :: 0 <= i < |pages| ==> Encodable(pages[i])
  }

  ghost predicate AllNarrow(pages: seq<Page>) {
    forall i :: 0 <= i < |pages| ==> Narrow(pages[i])
  }

  ghost predicate Capable(codec: Codec) {
    codec.Lossless() && codec.Bounded()
  }

  /** There are such codecs. */
  lemma PlainIsCapable()
    ensures Capable(Plain())
  {
    PlainMeetsAll();
  }

  lemma NarrowIsWritable(codec: Codec, page: Page)
    requires Capable(codec) && Encodable(page) && Narrow(page)
    ensures Writable(codec, page)
  {
    hide Payload;
    PayloadLength(page);
  }

  lemma {:induction false} WideStops(codec: Codec, pages: seq<Page>)
    requires Capable(codec) && AllEncodable(pages) && !AllNarrow(pages)
    ensures ReadPages(codec, FileBytes(codec, pages)).Failed?
  {
    hide PageStep, Frame, Encodable, Narrow, Capable;
    var page, rest := pages[0], pages[1..];
    assert pages == [page] + rest && Encodable(pages[0]);
    EncodableIsPage(page);
    ConcatCons(FrameEncoder(codec), page, rest);
    if Narrow(page) {
      CapableIsLossless(codec);
      NarrowIsWritable(codec, page);
      FrameReads(codec, page);
      NarrowRest(pages);
      WideStops(codec, rest);
      assert (Frame(codec, page) + FileBytes(codec, rest))[|Frame(codec, page)|..] == FileBytes(codec, rest);
      assert Stepper(codec)(FrameEncoder(codec)(page) + FileBytes(codec, rest), ())
             == More(StoredOf(page), (), |Frame(codec, page)|);
    } else {
      WideStep(codec, page, FileBytes(codec, rest));
    }
  }

  lemma EncodableIsPage(page: Page)
    requires Encodable(page)
    ensures page != [] && InOrder(page)
  {
  }

  lemma CapableIsLossless(codec: Codec)
    requires Capable(codec)
    ensures codec.Lossless()
  {
  }

  lemma NarrowRest(pages: seq<Page>)
    requires pages != [] && Narrow(pages[0]) && AllEncodable(pages) && !AllNarrow(pages)
    ensures AllEncodable(pages[1..]) && !AllNarrow(pages[1..])
  {
    hide Narrow, Encodable;
    var i :| 0 <= i < |pages| && !Narrow(pages[i]);
    assert pages[1..][i - 1] == pages[i];
  }

  lemma WideStep(codec: Codec, page: Page, rest: bytes)
    requires Capable(codec) && page != [] && !Narrow(page)
    ensures PageStep(codec, Frame(codec, page) + rest).Fail?
  {
    hide Frame, DecodeFrame;
    WideFrameFails(codec, page, rest);
    FrameHasBytes(codec, page);
  }

  lemma FrameHasBytes(codec: Codec, page: Page)
    requires page != []
    ensures |Frame(codec, page)| > 0
  {
  }

  /** A file of pages the engine writes reads back, and then as exactly those pages, if and only if none is too long. */
  lemma FileReadsIff(codec: Codec, pages: seq<Page>)
    requires Capable(codec) && AllEncodable(pages)
    ensures ReadPages(codec, FileBytes(codec, pages)).Scanned? <==> AllNarrow(pages)
    ensures AllNarrow(pages) ==>
              && (forall i :: 0 <= i < |pages| ==> pages[i] != [])
              && ReadPages(codec, FileBytes(codec, pages)) == Scanned(StoredAll(pages), (), |FileBytes(codec, pages)|)
  {
    hide ReadPages, FileBytes, Encodable, Narrow, Writable;
    if AllNarrow(pages) {
      forall i | 0 <= i < |pages| ensures Writable(codec, pages[i]) && InOrder(pages[i]) && pages[i] != [] {
        NarrowIsWritable(codec, pages[i]);
        EncodableIsPage(pages[i]);
      }
      ReadPagesOfFile(codec, pages);
    } else {
      WideStops(codec, pages);
    }
  }

  lemma NoBytesStop(codec: Codec)
    ensures Stepper(codec)([], ()) == Stop
  {
  }

  lemma WritableNonEmpty(codec: Codec, pages: seq<Page>)
    requires AllWritable(codec, pages)
    ensures forall i :: 0 <= i < |pages| ==> pages[i] != []
  {
    forall i | 0 <= i < |pages| ensures pages[i] != [] {
      assert Writable(codec, pages[i]);
    }
  }

  // ---------------------------------------------------------------- what a rewrite keeps

  lemma DecodedValid(codec: Codec, b: bytes)
    requires DecodeFrame(codec, b).Ok?
    ensures AllValid(DecodeFrame(codec, b).value.0.samples)
  {
    hide SplitFrame, LEVal, TsVal;
    PowWidths();
  }

  lemma {:induction false} ReadPagesFrom(codec: Codec, b: bytes)
    requires ReadPages(codec, b).Scanned?
    ensures var ps := ReadPages(codec, b).items;
            forall i :: 0 <= i < |ps| ==> AllValid(ps[i].samples) && Consistent(ps[i])
    decreases |b|
  {
    hide DecodeFrame, AllValid, Consistent;
    match PageStep(codec, b)
    case Stop =>
    case Fail(_) =>
    case More(p, _, n) =>
      DecodedValid(codec, b);
      NothingToCheck(p);
      ReadPagesFrom(codec, b[n..]);
  }

  lemma NothingToCheck(p: Stored)
    ensures p.samples == [] ==> Consistent(p)
  {
  }

  lemma {:induction false} SamplesValid(ps: seq<Stored>)
    requires forall i :: 0 <= i < |ps| ==> AllValid(ps[i].samples)
    ensures AllValid(SamplesOf(ps))
  {
    if ps != [] {
      SamplesValid(ps[..|ps| - 1]);
    }
  }

  /** Pages packed within a 16-bit limit can be written and read back. */
  lemma RepackedWritable(codec: Codec, ss: Page, cap: nat)
    requires codec.Bounded() && AllValid(ss) && 1 <= cap < TWO_16
    ensures AllWritable(codec, Repack(ss, cap))
  {
    hide Repack, Payload, Flatten;
    RepackFits(ss, cap);
    RepackKeeps(ss, cap);
    var pages := Repack(ss, cap);
    forall i | 0 <= i < |pages| ensures Writable(codec, pages[i]) && InOrder(pages[i]) {
      assert Fits(pages[i], cap);
      PayloadLength(pages[i]);
      PartOfFlat(pages, i);
    }
  }

  lemma {:induction false} PartOfFlat(pages: seq<Page>, i: nat)
    requires i < |pages|
    ensures forall s :: s in pages[i] ==> s in Flatten(pages)
  {
    if i > 0 {
      PartOfFlat(pages[1..], i - 1);
    }
  }

  /**
   A rewrite keeps the exact sample sequence: reading the new file gives pages in time order, within the limits,
   that hold the samples of the old one in the old order; and rewriting it again changes nothing.
   */
  lemma RecompactKeepsSamples(codec: Codec, b: bytes, lim: Limits)
    requires codec.Lossless() && codec.Bounded() && Capacity(lim) < TWO_16
    requires Recompacted(codec, b, lim).Ok?
    ensures var (out, frames) := Recompacted(codec, b, lim).value;
            var was, now := ReadPages(codec, b), ReadPages(codec, out);
            && was.Scanned? && now.Scanned?
            && SamplesOf(now.items) == SamplesOf(was.items)
            && |now.items| == frames
            && (forall i :: 0 <= i < frames ==> Fits(now.items[i].samples, Capacity(lim)) && Consistent(now.items[i]))
            && Recompacted(codec, out, lim) == Ok((out, frames))
  {
    hide Capacity, ReadPages, Repack, AllWritable, FileBytes, Fits, SamplesOf, StoredAll, StoredOf;
    var ps := ReadPages(codec, b).items;
    var ss, cap := SamplesOf(ps), Capacity(lim);
    var pages := Repack(ss, cap);
    ReadPagesFrom(codec, b);
    SamplesValid(ps);
    RepackedWritable(codec, ss, cap);
    WritableNonEmpty(codec, pages);
    ReadPagesOfFile(codec, pages);
    SamplesOfStored(pages);
    RepackKeeps(ss, cap);
    RepackFits(ss, cap);
    forall i | 0 <= i < |pages| ensures Fits(StoredAll(pages)[i].samples, cap) && Consistent(StoredAll(pages)[i]) {
      StoredIsConsistent(pages, i, cap);
    }
  }

  lemma StoredIsConsistent(pages: seq<Page>, i: nat, cap: nat)
    requires (forall k :: 0 <= k < |pages| ==> pages[k] != []) && i < |pages| && Fits(pages[i], cap)
    ensures Fits(StoredAll(pages)[i].samples, cap) && Consistent(StoredAll(pages)[i])
  {
    ConsistentIff(StoredOf(pages[i]));
  }

  /** The result of a rewrite depends on the sample sequence alone, not on how the old file cut it into pages. */
  lemma RecompactIsCanonical(codec: Codec, b: bytes, c: bytes, lim: Limits)
    requires ReadPages(codec, b).Scanned? && ReadPages(codec, c).Scanned?
    requires SamplesOf(ReadPages(codec, b).items) == SamplesOf(ReadPages(codec, c).items)
    ensures Recompacted(codec, b, lim) == Recompacted(codec, c, lim)
  {
  }

  lemma {:induction false} SourceSplits(ps: seq<Stored>, cap: nat) returns (pages: seq<Page>)
    requires forall i :: 0 <= i < |ps| ==> Consistent(ps[i]) && 0 < |ps[i].samples| <= cap
    ensures Splits(pages, SamplesOf(ps), cap) && |pages| == |ps|
  {
    if ps == [] {
      pages := [];
      assert Flatten<Sample>([]) == [];
    } else {
      var init := SourceSplits(ps[..|ps| - 1], cap);
      var last := ps[|ps| - 1];
      ConsistentIff(last);
      pages := init + [last.samples];
      FlattenSnoc(init, last.samples);
    }
  }

  /** A source whose pages are already within the limits never grows in pages. */
  lemma RecompactNeverAddsPages(codec: Codec, b: bytes, lim: Limits)
    requires Recompacted(codec, b, lim).Ok?
    requires forall i :: 0 <= i < |ReadPages(codec, b).items| ==> 0 < |ReadPages(codec, b).items[i].samples| <= Capacity(lim)
    ensures Recompacted(codec, b, lim).value.1 <= |ReadPages(codec, b).items|
  {
    hide ReadPages, Capacity, Repack, FileBytes;
    var ps := ReadPages(codec, b).items;
    ReadPagesFrom(codec, b);
    var pages := SourceSplits(ps, Capacity(lim));
    RepackIsFewest(SamplesOf(ps), Capacity(lim), pages);
  }
}
