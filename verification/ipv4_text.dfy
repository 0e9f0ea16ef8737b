/**
 * IPv4 addresses as text. The registration resolver renders record data as
 * dotted decimal (`str` of each byte, joined with "."), and the response
 * factory turns the registry's text back into four address octets with
 * `socket.inet_aton`. `DottedDecimal` writes one component per data byte,
 * however many there are; only a rendering of four bytes is a canonical
 * dotted quad. `InetAton` here accepts that canonical form only; the round
 * trip between the two on four bytes is `InetAtonOfDotted`.
 */
module IPv4Text {
  import opened Wire
  import opened Errors

  predicate IsDigit(c: char)
  {
    '0' <= c <= '9'
  }

  predicate AllDigits(s: string)
  {
    forall i :: 0 <= i < |s| ==> IsDigit(s[i])
  }

  function DigitChar(d: nat): (c: char)
    requires d < 10
    ensures IsDigit(c)
  {
    ('0' as int + d) as char
  }

  function DigitValue(c: char): (d: nat)
    requires IsDigit(c)
    ensures d < 10 && DigitChar(d) == c
  {
    c as int - '0' as int
  }

  /** `str(n)` for a natural number: its decimal digits, most significant
      first. */
  function DecimalString(n: nat): (r: string)
    ensures 1 <= |r| && AllDigits(r)
    decreases n
  {
    if n < 10 then [DigitChar(n)] else DecimalString(n / 10) + [DigitChar(n % 10)]
  }

  /** The number a string of decimal digits denotes. */
  function DecimalValue(s: string): nat
    requires AllDigits(s)
  {
    if s == [] then 0 else DecimalValue(s[..|s| - 1]) * 10 + DigitValue(s[|s| - 1])
  }

  /** Reading back the decimal form of a number gives the number. */
  lemma {:induction false} DecimalRoundTrip(n: nat)
    ensures DecimalValue(DecimalString(n)) == n
    decreases n
  {
    if n >= 10 {
      var s := DecimalString(n);
      assert s[..|s| - 1] == DecimalString(n / 10);
      DecimalRoundTrip(n / 10);
    }
  }

  /** The decimal form has no leading zero, and a value below 1000 takes at
      most three digits. */
  lemma {:induction false} DecimalShape(n: nat)
    ensures DecimalString(n)[0] == '0' ==> n == 0
    ensures n < 1000 ==> |DecimalString(n)| <= 3
    decreases n
  {
    if n >= 10 {
      DecimalShape(n / 10);
    }
  }

  /** One component of a dotted quad: one to three digits, no leading zero,
      at most 255. */
  function ParseOctet(s: string): (r: Option<byte>)
    ensures r.Some? ==> 1 <= |s| <= 3
  {
    if 1 <= |s| <= 3 && AllDigits(s) && (s[0] != '0' || |s| == 1) && DecimalValue(s) < 256
    then Some(DecimalValue(s))
    else None
  }

  /** The decimal form of an octet is accepted and read back as that octet. */
  lemma OctetRoundTrip(b: byte)
    ensures ParseOctet(DecimalString(b)) == Some(b)
  {
    DecimalRoundTrip(b);
    DecimalShape(b);
  }

  /** `s.split(".")`. */
  function SplitDots(s: string): (parts: seq<string>)
    ensures |parts| >= 1
  {
    if s == [] then [""]
    else
      var rest := SplitDots(s[1..]);
      if s[0] == '.' then [""] + rest else [[s[0]] + rest[0]] + rest[1..]
  }

  /** `socket.inet_aton` on the canonical dotted-quad form: four components,
      each the decimal form of an octet. */
  function InetAton(s: string): (r: Option<Bytes>)
    ensures r.Some? ==> |r.value| == 4
  {
    var parts := SplitDots(s);
    if |parts| == 4 && forall i :: 0 <= i < 4 ==> ParseOctet(parts[i]).Some? then
      Some(seq(4, i requires 0 <= i < 4 => ParseOctet(parts[i]).value))
    else None
  }

  /** The registration resolver's rendering of record data: each byte in
      decimal, joined with ".". Built from the back, one byte per loop
      iteration. */
  function DottedDecimal(bs: Bytes): (r: string)
    ensures r == "" <==> bs == []
  {
    if bs == [] then ""
    else if |bs| == 1 then DecimalString(bs[0])
    else DottedDecimal(bs[..|bs| - 1]) + "." + DecimalString(bs[|bs| - 1])
  }

  /** A string without dots is a single component. */
  lemma {:induction false} SplitNoDot(s: string)
    requires AllDigits(s)
    ensures SplitDots(s) == [s]
  {
    if s != [] {
      SplitNoDot(s[1..]);
      assert [s[0]] + s[1..] == s;
    }
  }

  /** Appending a dot and a dot-free component adds one component. */
  lemma {:induction false} SplitAppend(a: string, b: string)
    requires AllDigits(b)
    ensures SplitDots(a + "." + b) == SplitDots(a) + [b]
  {
    if a == [] {
      assert a + "." + b == "." + b;
      SplitNoDot(b);
    } else {
      assert (a + "." + b)[1..] == a[1..] + "." + b;
      SplitAppend(a[1..], b);
    }
  }

  /** The components of a dotted-decimal string are the bytes' decimal forms. */
  lemma {:induction false} SplitDotted(bs: Bytes)
    requires bs != []
    ensures |SplitDots(DottedDecimal(bs))| == |bs|
    ensures forall i :: 0 <= i < |bs| ==> SplitDots(DottedDecimal(bs))[i] == DecimalString(bs[i])
  {
    if |bs| == 1 {
      SplitNoDot(DecimalString(bs[0]));
    } else {
      var init := bs[..|bs| - 1];
      SplitDotted(init);
      SplitAppend(DottedDecimal(init), DecimalString(bs[|bs| - 1]));
    }
  }

  /** `inet_aton` reads a four-byte dotted-decimal rendering back as the same
      four bytes. */
  lemma InetAtonOfDotted(bs: Bytes)
    requires |bs| == 4
    ensures InetAton(DottedDecimal(bs)) == Some(bs)
  {
    SplitDotted(bs);
    var parts := SplitDots(DottedDecimal(bs));
    forall i | 0 <= i < 4
      ensures ParseOctet(parts[i]) == Some(bs[i])
    {
      OctetRoundTrip(bs[i]);
    }
    assert seq(4, i requires 0 <= i < 4 => ParseOctet(parts[i]).value) == bs;
  }

  /** The renderings the registration resolver's documentation gives. */
  lemma DottedExample()
    ensures DottedDecimal([192, 168, 0, 1]) == "192.168.0.1"
  {
    assert DecimalString(192) == "192" && DecimalString(168) == "168";
    var bs: Bytes := [192, 168, 0, 1];
    assert DottedDecimal(bs[..1]) == "192";
    assert bs[..2][..1] == bs[..1] && bs[..3][..2] == bs[..2];
    assert DottedDecimal(bs[..2]) == "192.168";
    assert DottedDecimal(bs[..3]) == "192.168.0";
    assert bs[..4][..3] == bs[..3];
  }

  lemma DottedExampleAllOnes()
    ensures DottedDecimal([255, 255, 255, 255]) == "255.255.255.255"
  {
    assert DecimalString(255) == "255";
    var bs: Bytes := [255, 255, 255, 255];
    assert DottedDecimal(bs[..1]) == "255";
    assert bs[..2][..1] == bs[..1] && bs[..3][..2] == bs[..2];
    assert DottedDecimal(bs[..2]) == "255.255";
    assert DottedDecimal(bs[..3]) == "255.255.255";
    assert bs[..4][..3] == bs[..3];
  }

  /** The addresses the response factory's tests resolve. */
  lemma LoopbackDotted()
    ensures DottedDecimal([127, 0, 0, 1]) == "127.0.0.1"
  {
    assert DecimalString(127) == "127";
    var bs: Bytes := [127, 0, 0, 1];
    assert DottedDecimal(bs[..1]) == "127";
    assert bs[..2][..1] == bs[..1] && bs[..3][..2] == bs[..2];
    assert DottedDecimal(bs[..2]) == "127.0";
    assert DottedDecimal(bs[..3]) == "127.0.0";
    assert bs[..4][..3] == bs[..3];
  }

  lemma PrivateDotted()
    ensures DottedDecimal([192, 168, 1, 1]) == "192.168.1.1"
  {
    assert DecimalString(192) == "192" && DecimalString(168) == "168";
    var bs: Bytes := [192, 168, 1, 1];
    assert DottedDecimal(bs[..1]) == "192";
    assert bs[..2][..1] == bs[..1] && bs[..3][..2] == bs[..2];
    assert DottedDecimal(bs[..2]) == "192.168";
    assert DottedDecimal(bs[..3]) == "192.168.1";
    assert bs[..4][..3] == bs[..3];
  }

  lemma InetAtonExamples()
    ensures InetAton("127.0.0.1") == Some([127, 0, 0, 1])
    ensures InetAton("192.168.1.1") == Some([192, 168, 1, 1])
  {
    LoopbackDotted();
    InetAtonOfDotted([127, 0, 0, 1]);
    PrivateDotted();
    InetAtonOfDotted([192, 168, 1, 1]);
  }
}
