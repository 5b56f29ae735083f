/**
 Byte strings, little-endian integers and the base-128 varints of Go's encoding/binary package.
 */
module Bytes {
  import opened Prelude

  type byte = b: int | 0 <= b < 256
  type bytes = seq<byte>

  const TWO_16: int := 0x1_0000
  const TWO_32: int := 0x1_0000_0000
  const TWO_63: int := 0x8000_0000_0000_0000
  const TWO_64: int := 0x1_0000_0000_0000_0000

  /** The longest byte slice a process can hold, with room to spare. */
  const MAX_SLICE: int := 0x4000_0000_0000_0000

  // ---------------------------------------------------------------- little-endian integers

  function Pow256(k: nat): (p: nat)
    ensures p >= 1
  {
    if k == 0 then 1 else 256 * Pow256(k - 1)
  }

  /** The k-byte little-endian form of n (PutUint16, PutUint32 and PutUint64 are k = 2, 4 and 8). */
  function LE(n: nat, k: nat): (b: bytes)
    ensures |b| == k
  {
    if k == 0 then [] else [n % 256] + LE(n / 256, k - 1)
  }

  function LEVal(b: bytes): (n: nat)
    ensures n < Pow256(|b|)
  {
    if b == [] then 0 else b[0] + 256 * LEVal(b[1..])
  }

  lemma {:induction false} LERoundTrip(n: nat, k: nat)
    requires n < Pow256(k)
    ensures LEVal(LE(n, k)) == n
  {
    if k > 0 {
      LERoundTrip(n / 256, k - 1);
      assert LE(n, k)[1..] == LE(n / 256, k - 1);
    }
  }

  lemma {:induction false} LEOnto(b: bytes)
    ensures LE(LEVal(b), |b|) == b
  {
    if b != [] {
      LEOnto(b[1..]);
      assert LEVal(b) % 256 == b[0] && LEVal(b) / 256 == LEVal(b[1..]);
    }
  }

  lemma PowWidths()
    ensures Pow256(2) == TWO_16
    ensures Pow256(4) == TWO_32
    ensures Pow256(8) == TWO_64
  {
    assert Pow256(1) == 256;
    assert Pow256(2) == 256 * Pow256(1);
    assert Pow256(3) == 256 * Pow256(2);
    assert Pow256(4) == 256 * Pow256(3);
    assert Pow256(5) == 256 * Pow256(4);
    assert Pow256(6) == 256 * Pow256(5);
    assert Pow256(7) == 256 * Pow256(6);
    assert Pow256(8) == 256 * Pow256(7);
  }

  type Word = w: nat | w < TWO_32

  /** A signed 64-bit timestamp, and the unsigned word it is stored as. */
  type Timestamp = t: int | -TWO_63 <= t < TWO_63

  function TsWord(t: Timestamp): (w: nat)
    ensures w < TWO_64
  {
    if t >= 0 then t else t + TWO_64
  }

  function WordTs(w: nat): (t: Timestamp)
    requires w < TWO_64
  {
    if w < TWO_63 then w else w - TWO_64
  }

  function LETs(t: Timestamp): (b: bytes)
    ensures |b| == 8
  {
    LE(TsWord(t), 8)
  }

  function TsVal(b: bytes): (t: Timestamp)
    requires |b| == 8
  {
    PowWidths();
    WordTs(LEVal(b))
  }

  lemma TsRoundTrip(t: Timestamp)
    ensures TsVal(LETs(t)) == t
  {
    PowWidths();
    LERoundTrip(TsWord(t), 8);
  }

  // ---------------------------------------------------------------- varints

  const MAX_VARINT_LEN: int := 10

  /** binary.PutUvarint. */
  function PutUvarint(x: nat): (b: bytes)
    ensures |b| >= 1
  {
    if x < 128 then [x] else [x % 128 + 128] + PutUvarint(x / 128)
  }

  /** The value and length of a varint at the head of b when `seen` of its bytes are already consumed. */
  function UvarintAt(b: bytes, seen: nat): (r: Option<(nat, nat)>)
    ensures r.Some? ==> 1 <= r.value.1 <= |b|
    decreases |b|
  {
    if b == [] || seen >= MAX_VARINT_LEN then None
    else if b[0] < 128 then
      if seen == MAX_VARINT_LEN - 1 && b[0] > 1 then None else Some((b[0], 1))
    else
      match UvarintAt(b[1..], seen + 1)
      case None => None
      case Some((v, n)) => Some((b[0] - 128 + 128 * v, n + 1))
  }

  /** binary.Uvarint: None stands for its n <= 0 outcomes (buffer too short, or a value over 64 bits). */
  function Uvarint(b: bytes): (r: Option<(nat, nat)>)
    ensures r.Some? ==> 1 <= r.value.1 <= |b|
  {
    UvarintAt(b, 0)
  }

  function Pow128(k: nat): (p: nat)
    ensures p >= 1
  {
    if k == 0 then 1 else 128 * Pow128(k - 1)
  }

  /** The largest value a varint may still hold after `seen` bytes: 64 bits in all. */
  ghost function Room(seen: nat): (r: nat)
    requires seen <= 9
    ensures r >= 2
  {
    2 * Pow128(9 - seen)
  }

  lemma RoomIs64Bits()
    ensures Room(0) == TWO_64
  {
    assert Pow128(1) == 128;
    assert Pow128(2) == 128 * Pow128(1);
    assert Pow128(3) == 128 * Pow128(2);
    assert Pow128(4) == 128 * Pow128(3);
    assert Pow128(5) == 128 * Pow128(4);
    assert Pow128(6) == 128 * Pow128(5);
    assert Pow128(7) == 128 * Pow128(6);
    assert Pow128(8) == 128 * Pow128(7);
    assert Pow128(9) == 128 * Pow128(8);
  }

  lemma {:induction false} UvarintAtRoundTrip(x: nat, rest: bytes, seen: nat)
    requires seen <= 9 && x < Room(seen)
    ensures UvarintAt(PutUvarint(x) + rest, seen) == Some((x, |PutUvarint(x)|))
    decreases x
  {
    if x >= 128 {
      var tail := PutUvarint(x / 128);
      assert (PutUvarint(x) + rest)[1..] == tail + rest;
      assert seen < 9;
      assert Room(seen) == 128 * Room(seen + 1);
      UvarintAtRoundTrip(x / 128, rest, seen + 1);
    }
  }

  /** Decoding inverts encoding for every 64-bit value, whatever bytes follow. */
  lemma UvarintRoundTrip(x: nat, rest: bytes)
    requires x < TWO_64
    ensures Uvarint(PutUvarint(x) + rest) == Some((x, |PutUvarint(x)|))
  {
    RoomIs64Bits();
    UvarintAtRoundTrip(x, rest, 0);
  }

  lemma {:induction false} UvarintAtOver(x: nat, rest: bytes, seen: nat)
    requires seen <= 9 && x >= Room(seen)
    ensures UvarintAt(PutUvarint(x) + rest, seen) == None
    decreases x
  {
    if x >= 128 {
      var tail := PutUvarint(x / 128);
      assert (PutUvarint(x) + rest)[1..] == tail + rest;
      if seen < 9 {
        assert Room(seen) == 128 * Room(seen + 1);
        UvarintAtOver(x / 128, rest, seen + 1);
      }
    }
  }

  /** A value over 64 bits is refused, so decoding inverts encoding for the 64-bit values only. */
  lemma UvarintOver(x: nat, rest: bytes)
    requires x >= TWO_64
    ensures Uvarint(PutUvarint(x) + rest) == None
  {
    RoomIs64Bits();
    UvarintAtOver(x, rest, 0);
  }

  lemma {:induction false} UvarintAtTruncated(x: nat, k: nat, seen: nat)
    requires k < |PutUvarint(x)|
    ensures UvarintAt(PutUvarint(x)[..k], seen) == None
    decreases x
  {
    if k > 0 && x >= 128 {
      var p := PutUvarint(x);
      assert p[..k][1..] == PutUvarint(x / 128)[..k - 1];
      UvarintAtTruncated(x / 128, k - 1, seen + 1);
    }
  }

  /** A varint cut short never decodes: this is the crash tail the log scanners look for. */
  lemma UvarintTruncated(x: nat, k: nat)
    requires k < |PutUvarint(x)|
    ensures Uvarint(PutUvarint(x)[..k]) == None
  {
    UvarintAtTruncated(x, k, 0);
  }

  lemma {:induction false} UvarintAtLocal(b: bytes, c: bytes, seen: nat)
    requires UvarintAt(b, seen).Some?
    requires UvarintAt(b, seen).value.1 <= |c|
    requires c[..UvarintAt(b, seen).value.1] == b[..UvarintAt(b, seen).value.1]
    ensures UvarintAt(c, seen) == UvarintAt(b, seen)
    decreases |b|
  {
    var n := UvarintAt(b, seen).value.1;
    assert c[..n][0] == c[0] && b[..n][0] == b[0];
    if b[0] >= 128 {
      assert c[1..][..n - 1] == c[..n][1..] == b[..n][1..] == b[1..][..n - 1];
      UvarintAtLocal(b[1..], c[1..], seen + 1);
    }
  }

  /** What a varint decodes to depends only on its own bytes. */
  lemma UvarintLocal(b: bytes, c: bytes)
    requires Uvarint(b).Some?
    requires Uvarint(b).value.1 <= |c| && c[..Uvarint(b).value.1] == b[..Uvarint(b).value.1]
    ensures Uvarint(c) == Uvarint(b)
  {
    UvarintAtLocal(b, c, 0);
  }

  // ---------------------------------------------------------------- cutting byte strings

  /** k bytes of b starting at off. */
  function Sub(b: bytes, off: nat, k: nat): (s: bytes)
    requires off + k <= |b|
    ensures |s| == k
  {
    b[off..off + k]
  }

  lemma CutFrame(pre: bytes, h: bytes, z: bytes, c: bytes, post: bytes)
    ensures var f := pre + (h + z + c) + post;
            && |f| == |pre| + |h| + |z| + |c| + |post|
            && Sub(f, |pre|, |h|) == h && Sub(f, |pre| + |h|, |z|) == z && Sub(f, |pre| + |h| + |z|, |c|) == c
  {
  }

  lemma SubOfConcat(pre: bytes, mid: bytes, post: bytes)
    ensures Sub(pre + mid + post, |pre|, |mid|) == mid
  {
  }

  /** Where the pieces of pre, value, length, payload and what follows lie in their concatenation. */
  lemma CutTail(pre: bytes, v: bytes, u: bytes, pay: bytes, rest: bytes)
    ensures var p := pre + (v + (u + pay)) + rest;
            && |p| == |pre| + |v| + |u| + |pay| + |rest|
            && Sub(p, |pre|, |v|) == v
            && p[|pre| + |v|..] == u + (pay + rest)
            && Sub(p, |pre| + |v| + |u|, |pay|) == pay
  {
    var p := pre + (v + (u + pay)) + rest;
    assert p == (pre + v) + (u + (pay + rest));
    assert p == (pre + v + u) + pay + rest;
    SubOfConcat(pre + v + u, pay, rest);
    assert p == pre + v + (u + (pay + rest));
    SubOfConcat(pre, v, u + (pay + rest));
  }

  /** Where an id, a timestamp and a flag byte lie at the head of a record. */
  lemma CutHead(i: bytes, t: bytes, f: bytes, n: bytes, rest: bytes)
    requires |i| == 2 && |t| == 8 && |f| == 1
    ensures var p := i + t + f + n + rest;
            && |p| >= 11 && Sub(p, 0, 2) == i && Sub(p, 2, 8) == t && p[10] == f[0]
            && p[11..] == n + rest
  {
  }
}
