/** Metric samples and pages of them. */
module Samples {
  import opened Prelude
  import opened Bytes

  datatype Sample = Sample(id: nat, ts: Timestamp, raw: nat)

  type Page = seq<Sample>

  /** The id fits 16 bits and the raw value 32. */
  predicate ValidSample(s: Sample) {
    s.id < TWO_16 && s.raw < TWO_32
  }

  ghost predicate AllValid(page: Page) {
    forall s :: s in page ==> ValidSample(s)
  }

  ghost predicate InOrder(page: Page) {
    forall i, j :: 0 <= i < j < |page| ==> page[i].ts <= page[j].ts
  }

  function EndOf(page: Page): Timestamp
    requires page != []
  {
    page[|page| - 1].ts
  }

  /** A setting at or below zero falls back to the default. */
  datatype Limits = Limits(maxRecords: int, maxBytes: int) {
    function Records(): (n: int)
      ensures n >= 1
    {
      if maxRecords <= 0 then 12000 else maxRecords
    }

    function Bytes(): (n: int)
      ensures n >= 1
    {
      if maxBytes <= 0 then 256 * 1024 else maxBytes
    }
  }
}
