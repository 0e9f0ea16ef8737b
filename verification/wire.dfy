/**
 * Bytes as the Python code sees them: immutable `bytes` values, sliced with
 * clamping (`s[i:j]` never fails, it just gets shorter) and read as unsigned
 * big-endian integers with `int.from_bytes(..., "big")`.
 */
module Wire {

  /** One octet of a datagram. */
  type byte = b: int | 0 <= b < 256

  /** A Python `bytes` value. */
  type Bytes = seq<byte>

  function Min(a: int, b: int): int
  {
    if a <= b then a else b
  }

  /** Python's `s[i:j]` for non-negative bounds: both bounds are clamped to the
      length, and the slice is empty when the (clamped) end is not past the start. */
  function Slice(s: Bytes, i: nat, j: nat): (r: Bytes)
    ensures i <= j <= |s| ==> r == s[i..j]
    ensures |r| == if Min(j, |s|) <= i then 0 else Min(j, |s|) - i
  {
    var lo := Min(i, |s|);
    var hi := Min(j, |s|);
    if hi <= lo then [] else s[lo..hi]
  }

  /** Python's `s[:j]`. */
  function Take(s: Bytes, j: nat): (r: Bytes)
    ensures |r| == Min(j, |s|)
    ensures r == s[..Min(j, |s|)]
  {
    s[..Min(j, |s|)]
  }

  /** Python's `s[i:]`. */
  function Drop(s: Bytes, i: nat): (r: Bytes)
    ensures |r| == if i <= |s| then |s| - i else 0
    ensures i <= |s| ==> r == s[i..]
  {
    s[Min(i, |s|)..]
  }

  /** Python's `int.from_bytes(s, "big")`; the empty sequence reads as 0. */
  function FromBytes(s: Bytes): nat
  {
    if s == [] then 0 else FromBytes(s[..|s| - 1]) * 256 + s[|s| - 1]
  }

  /** The 2-byte big-endian form of a 16-bit value. */
  function U16(n: nat): (r: Bytes)
    requires n < 0x1_0000
    ensures |r| == 2
  {
    [n / 256, n % 256]
  }

  /** A 2-byte read is the usual big-endian combination and stays below 2^16. */
  lemma FromBytes2(s: Bytes)
    requires |s| == 2
    ensures FromBytes(s) == (s[0] as int) * 256 + (s[1] as int) < 0x1_0000
  {
    assert s[..1][..0] == [];
    assert FromBytes(s[..1]) == s[0];
  }

  /** A 1-byte read is the byte itself. */
  lemma FromBytes1(s: Bytes)
    requires |s| == 1
    ensures FromBytes(s) == s[0]
  {
    assert s[..0] == [];
  }

  /** Reading back the 2-byte form of a 16-bit value gives the value. */
  lemma U16RoundTrip(n: nat)
    requires n < 0x1_0000
    ensures FromBytes(U16(n)) == n
  {
    FromBytes2(U16(n));
  }

  /** The 2-byte big-endian form is the only 2-byte sequence that reads as n. */
  lemma U16Unique(s: Bytes, n: nat)
    requires |s| == 2 && n < 0x1_0000 && FromBytes(s) == n
    ensures s == U16(n)
  {
    FromBytes2(s);
  }

  /** Concatenation of bytes is associative. */
  lemma AppendAssoc(a: Bytes, b: Bytes, c: Bytes)
    ensures a + (b + c) == a + b + c
  {
  }
}
