/** The compression codec and checksum that every page frame goes through, as parameters. */
module Codec {
  import opened Prelude
  import opened Bytes

  /** MaxOnDiskFramePayloadBytes. */
  const MAX_FRAME_PAYLOAD: int := 128 * 1024 * 1024

  /** The 48-bit address space of a process holds no slice of more 8-byte words. */
  const MAX_HELD: nat := 0x2000_0000_0000

  datatype Codec = Codec(compress: bytes -> bytes, decompress: bytes -> Option<bytes>, crc: bytes -> nat) {
    /** Decompression inverts compression; the checksum is a 32-bit word. Nothing else is assumed. */
    ghost predicate Lossless() {
      && (forall x: bytes :: decompress(compress(x)) == Some(x))
      && (forall x: bytes :: crc(x) < TWO_32)
    }

    /** The payload of a page that fits the 16-bit record count, 14 bytes a record, compresses to within the frame cap. */
    ghost predicate Bounded() {
      forall x: bytes :: |x| < 14 * TWO_16 ==> |compress(x)| <= MAX_FRAME_PAYLOAD
    }

    /** The payload of a page that a process can hold, 14 bytes a record, compresses to a slice it can hold. */
    ghost predicate Contained() {
      forall x: bytes :: |x| <= 14 * MAX_HELD ==> |compress(x)| < MAX_SLICE
    }
  }

  /** The codec that stores its input as it is. */
  function Plain(): Codec {
    Codec((x: bytes) => x, (x: bytes) => Some(x), (x: bytes) => 0)
  }

  /** What is assumed of a codec can all be had at once. */
  lemma PlainMeetsAll()
    ensures Plain().Lossless() && Plain().Bounded() && Plain().Contained()
  {
  }
}
