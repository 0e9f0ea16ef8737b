/**
 * Python's strict `bytes.decode("utf-8")`: well-formed UTF-8 (no overlong
 * forms, no encoded surrogates, nothing above U+10FFFF) decodes to the
 * sequence of scalar values; anything else raises, modelled as `None`.
 */
module Utf8 {
  import opened Wire
  import opened Errors

  predicate IsContinuation(b: byte)
  {
    0x80 <= b < 0xC0
  }

  predicate IsAscii(s: string)
  {
    forall i :: 0 <= i < |s| ==> s[i] as int < 0x80
  }

  /** The one-byte-per-character encoding of an ASCII string. */
  function AsciiBytes(s: string): (r: Bytes)
    requires IsAscii(s)
    ensures |r| == |s|
  {
    if s == [] then [] else [s[0] as int] + AsciiBytes(s[1..])
  }

  /** Each byte of the encoding is its character's code. */
  lemma {:induction false} AsciiBytesAt(s: string, k: nat)
    requires IsAscii(s) && k < |s|
    ensures AsciiBytes(s)[k] == s[k] as int
    decreases k
  {
    if k > 0 {
      AsciiBytesAt(s[1..], k - 1);
    }
  }

  /** `bytes.decode("utf-8")`. */
  function Decode(s: Bytes): Option<string>
    decreases |s|, 1
  {
    if s == [] then Some("")
    else if s[0] < 0x80 then Prepend((s[0] as int) as char, Decode(s[1..]))
    else DecodeMultiByte(s)
  }

  function Prepend(c: char, r: Option<string>): Option<string>
  {
    match r
    case None => None
    case Some(rest) => Some([c] + rest)
  }

  /** A string that starts with a lead byte of a 2-, 3- or 4-byte sequence
      (or with a byte that can start none). */
  function DecodeMultiByte(s: Bytes): Option<string>
    requires |s| > 0
    decreases |s|, 0
  {
    var b0 := s[0] as int;
    var b1 := if |s| >= 2 then s[1] as int else 0;
    var b2 := if |s| >= 3 then s[2] as int else 0;
    var b3 := if |s| >= 4 then s[3] as int else 0;
    if 0xC2 <= b0 <= 0xDF then
      if |s| >= 2 && IsContinuation(s[1]) then
        Prepend(((b0 - 0xC0) * 64 + (b1 - 0x80)) as char, Decode(s[2..]))
      else None
    else if 0xE0 <= b0 <= 0xEF then
      var lo := if b0 == 0xE0 then 0xA0 else 0x80;
      var hi := if b0 == 0xED then 0xA0 else 0xC0;
      if |s| >= 3 && lo <= b1 < hi && IsContinuation(s[2]) then
        var cp := (b0 - 0xE0) * 4096 + (b1 - 0x80) * 64 + (b2 - 0x80);
        Prepend(cp as char, Decode(s[3..]))
      else None
    else if 0xF0 <= b0 <= 0xF4 then
      var lo := if b0 == 0xF0 then 0x90 else 0x80;
      var hi := if b0 == 0xF4 then 0x90 else 0xC0;
      if |s| >= 4 && lo <= b1 < hi && IsContinuation(s[2]) && IsContinuation(s[3]) then
        var cp := (b0 - 0xF0) * 262144 + (b1 - 0x80) * 4096 + (b2 - 0x80) * 64 + (b3 - 0x80);
        Prepend(cp as char, Decode(s[4..]))
      else None
    else
      None
  }

  /** On ASCII text the decoder is the identity. */
  lemma {:induction false} DecodeAscii(s: string)
    requires IsAscii(s)
    ensures Decode(AsciiBytes(s)) == Some(s)
  {
    if s != [] {
      DecodeAscii(s[1..]);
      assert [s[0]] + s[1..] == s;
    }
  }
}
