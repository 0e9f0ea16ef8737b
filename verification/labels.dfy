/**
 * The domain-name rule shared by the query resolver and the registration
 * resolver: an optional non-standard scheme marker (`\x07http` renders as
 * `http://`, `\x08https` as `https://`, each checked once, in that order),
 * then length-prefixed labels (section 3.1 of RFC 1035) joined with "." and
 * ended by a zero length byte.
 *
 * `StripScheme` and `WalkLabels` state the rule; the two resolvers' loops are
 * proved against them. `EncodeName` is the partner: the wire form of a scheme
 * and a list of ASCII labels, which the rule decodes back (`DecodeEncodedName`).
 */
module Labels {
  import opened Wire
  import opened Errors
  import Utf8

  /** The bytes of the marker labels' text. */
  const HttpBytes: Bytes := [104, 116, 116, 112]
  const HttpsBytes: Bytes := [104, 116, 116, 112, 115]

  /** The text collected by the scheme pre-step and the bytes still to walk. */
  datatype Stripped = Stripped(prefix: string, rest: Bytes)

  /** `d[0] == 7 and d[1:5] == b"http"` on a non-empty `d`. The clamped slice
      can only equal four bytes when `d` holds at least five. */
  predicate IsHttpMarker(d: Bytes)
  {
    |d| >= 5 && d[0] == 7 && d[1..5] == HttpBytes
  }

  /** `d[0] == 8 and d[1:6] == b"https"` on a non-empty `d`. */
  predicate IsHttpsMarker(d: Bytes)
  {
    |d| >= 6 && d[0] == 8 && d[1..6] == HttpsBytes
  }

  /** The scheme pre-step: two independent tests, the second one on what the
      first left. Each test first indexes byte 0, outside any `try`, so an
      empty input, or one that is exactly `\x07http`, raises an `IndexError`,
      modelled as `Other`. */
  function StripScheme(d: Bytes): (r: Result<Stripped>)
    ensures r.Err? <==> d == [] || d == [7] + HttpBytes
    ensures r.Err? ==> r.error == Other
    ensures r.Ok? ==> |r.value.rest| <= |d| && r.value.rest == d[|d| - |r.value.rest|..]
    ensures r.Ok? ==> (r.value.prefix == "" <==> r.value.rest == d)
    ensures IsHttpMarker(d) && IsHttpsMarker(d[5..]) ==> r == Ok(Stripped("http://https://", d[11..]))
    ensures IsHttpMarker(d) && |d| > 5 && !IsHttpsMarker(d[5..]) ==> r == Ok(Stripped("http://", d[5..]))
    ensures !IsHttpMarker(d) && IsHttpsMarker(d) ==> r == Ok(Stripped("https://", d[6..]))
    ensures d != [] && !IsHttpMarker(d) && !IsHttpsMarker(d) ==> r == Ok(Stripped("", d))
  {
    if d == [] then Err(Other)
    else if IsHttpMarker(d) then
      var d1 := d[5..];
      if d1 == [] then
        assert d == [d[0]] + d[1..5];
        Err(Other)
      else if IsHttpsMarker(d1) then Ok(Stripped("http://https://", d1[6..]))
      else Ok(Stripped("http://", d1))
    else if IsHttpsMarker(d) then Ok(Stripped("https://", d[6..]))
    else Ok(Stripped("", d))
  }

  /** Where the label walk stopped: the decoded name and the index of the
      zero terminator. */
  datatype Walked = Walked(name: string, pointer: nat)

  /** The label loop from index `pointer` with the text `name` collected so
      far, one call per iteration. `None` is any exception inside the loop:
      reading a length byte past the end, or a label that is not UTF-8. A dot
      goes before every label that does not start at index 0. */
  function WalkLabels(d: Bytes, pointer: nat, name: string): (r: Option<Walked>)
    ensures r.Some? ==> pointer <= r.value.pointer < |d| && d[r.value.pointer] == 0
    decreases |d| - pointer
  {
    if pointer >= |d| then None
    else
      var length := d[pointer];
      if length == 0 then Some(Walked(name, pointer))
      else
        // A label running past the end is sliced short (and may well decode),
        // but the next length read is then past the end: both fail alike.
        if pointer + 1 + length > |d| then None
        else
        match Utf8.Decode(d[pointer + 1..pointer + 1 + length])
        case None => None
        case Some(text) =>
          WalkLabels(d, pointer + length + 1, name + (if pointer != 0 then "." else "") + text)
  }

  /** The label loop itself, shared by both resolvers: `pointer` moves from
      length byte to length byte while the labels' text is appended to
      `domainName`; the loop ends at a zero length byte. */
  method ReadLabels(data: Bytes, prefix: string) returns (r: Option<Walked>)
    ensures r == WalkLabels(data, 0, prefix)
  {
    var pointer: nat := 0;
    var domainName := prefix;
    while true
      invariant WalkLabels(data, pointer, domainName) == WalkLabels(data, 0, prefix)
      decreases |data| - pointer
    {
      if pointer >= |data| {
        return None;
      }
      ghost var before := domainName;
      var labelLength := data[pointer];
      if labelLength == 0 {
        break;
      } else if pointer != 0 {
        domainName := domainName + ".";
      }
      var raw := Slice(data, pointer + 1, pointer + 1 + labelLength);
      var text := Utf8.Decode(raw);
      if text.None? {
        return None;
      }
      domainName := domainName + text.value;
      assert domainName == before + (if pointer != 0 then "." else "") + text.value;
      pointer := pointer + labelLength + 1;
    }
    return Some(Walked(domainName, pointer));
  }

  // ---------------------------------------------------------------------
  // The partner: encoding a name, and decoding the encoding.

  /** The prefixes the pre-step recognises: none, one of the two markers, or
      the `http` marker followed by the `https` one, since the second test
      runs on what the first left. */
  datatype Scheme = NoScheme | Http | Https | HttpThenHttps

  function SchemeText(s: Scheme): string
  {
    match s
    case NoScheme => ""
    case Http => "http://"
    case Https => "https://"
    case HttpThenHttps => "http://https://"
  }

  function SchemeBytes(s: Scheme): Bytes
  {
    match s
    case NoScheme => []
    case Http => [7] + HttpBytes
    case Https => [8] + HttpsBytes
    case HttpThenHttps => [7] + HttpBytes + [8] + HttpsBytes
  }

  /** A label the encoder can write: 1 to 255 ASCII characters. */
  predicate ValidLabel(l: string)
  {
    1 <= |l| <= 255 && Utf8.IsAscii(l)
  }

  /** A first label that the scheme pre-step would mistake for a marker:
      seven bytes starting "http", or eight starting "https". */
  predicate LooksLikeMarker(l: string)
    requires Utf8.IsAscii(l)
  {
    var b := Utf8.AsciiBytes(l);
    (|b| == 7 && b[..4] == HttpBytes) || (|b| == 8 && b[..5] == HttpsBytes)
  }

  /** Every label is one the encoder can write. */
  predicate AllValid(labels: seq<string>)
  {
    labels == [] || (ValidLabel(labels[0]) && AllValid(labels[1..]))
  }

  predicate Encodable(labels: seq<string>)
  {
    && AllValid(labels)
    && (labels != [] ==> !LooksLikeMarker(labels[0]))
  }

  /** Length-prefixed labels, without the terminator. */
  function EncodeLabels(labels: seq<string>): Bytes
    requires AllValid(labels)
  {
    if labels == [] then []
    else
      [|labels[0]|] + Utf8.AsciiBytes(labels[0]) + EncodeLabels(labels[1..])
  }

  /** The labels joined with ".", with a leading "." when `dot` holds. */
  function JoinLabels(labels: seq<string>, dot: bool): string
  {
    if labels == [] then ""
    else (if dot then "." else "") + labels[0] + JoinLabels(labels[1..], true)
  }

  /** The wire form of a scheme and labels, terminator included. */
  function EncodeName(scheme: Scheme, labels: seq<string>): Bytes
    requires Encodable(labels)
  {
    SchemeBytes(scheme) + EncodeLabels(labels) + [0]
  }

  /** The text the server should read back from `EncodeName(scheme, labels)`. */
  function NameText(scheme: Scheme, labels: seq<string>): string
  {
    SchemeText(scheme) + JoinLabels(labels, false)
  }

  /** The labels found at index p of d, each a length byte and its text,
      followed by a zero byte. */
  predicate EncodedAt(d: Bytes, p: nat, labels: seq<string>)
    decreases |labels|
  {
    if labels == [] then p < |d| && d[p] == 0
    else
      var l := labels[0];
      && ValidLabel(l)
      && p + |l| + 1 <= |d|
      && d[p] == |l|
      && d[p + 1..p + |l| + 1] == Utf8.AsciiBytes(l)
      && EncodedAt(d, p + |l| + 1, labels[1..])
  }

  /** Bytes put in front move encoded labels along with them. */
  lemma {:induction false} EncodedAtShift(x: Bytes, d: Bytes, p: nat, labels: seq<string>)
    requires EncodedAt(d, p, labels)
    ensures EncodedAt(x + d, |x| + p, labels)
    decreases |labels|
  {
    if labels != [] {
      var l := labels[0];
      EncodedAtShift(x, d, p + |l| + 1, labels[1..]);
      SliceShift(x, d, p + 1, p + |l| + 1);
    }
  }

  lemma SliceShift(x: Bytes, d: Bytes, i: nat, j: nat)
    requires i <= j <= |d|
    ensures (x + d)[|x| + i..|x| + j] == d[i..j]
  {
  }

  /** An encoding followed by a zero byte is found at index 0. */
  lemma {:induction false} EncodedAtEncode(labels: seq<string>, z: Bytes)
    requires AllValid(labels) && z != [] && z[0] == 0
    ensures EncodedAt(EncodeLabels(labels) + z, 0, labels)
    decreases |labels|
  {
    if labels == [] {
      assert EncodeLabels(labels) + z == z;
    } else {
      var l := labels[0];
      var lb := Utf8.AsciiBytes(l);
      var x: Bytes := [|l|] + lb;
      var d := x + (EncodeLabels(labels[1..]) + z);
      assert EncodedAt(d, |l| + 1, labels[1..]) by {
        EncodedAtEncode(labels[1..], z);
        EncodedAtShift(x, EncodeLabels(labels[1..]) + z, 0, labels[1..]);
      }
      assert d[0] == |l| && d[1..|l| + 1] == lb by {
        AfterLengthByte(|l|, lb, EncodeLabels(labels[1..]) + z, |l|);
      }
      EncodedAtCons(d, 0, labels);
      Assoc([|l|], lb, EncodeLabels(labels[1..]), z);
    }
  }

  /** One label in front of encoded labels. */
  lemma EncodedAtCons(d: Bytes, p: nat, labels: seq<string>)
    requires labels != [] && ValidLabel(labels[0]) && p + |labels[0]| + 1 <= |d|
    requires d[p] == |labels[0]| && d[p + 1..p + |labels[0]| + 1] == Utf8.AsciiBytes(labels[0])
    requires EncodedAt(d, p + |labels[0]| + 1, labels[1..])
    ensures EncodedAt(d, p, labels)
  {
  }

  lemma Assoc(a: Bytes, b: Bytes, c: Bytes, z: Bytes)
    ensures a + b + c + z == a + b + (c + z)
  {
  }

  /** One iteration of the label loop over an encoded ASCII label. */
  lemma WalkStep(d: Bytes, p: nat, l: string, name: string)
    requires ValidLabel(l)
    requires p + |l| + 1 <= |d| && d[p] == |l| && d[p + 1..p + |l| + 1] == Utf8.AsciiBytes(l)
    ensures WalkLabels(d, p, name) == WalkLabels(d, p + |l| + 1, name + (if p != 0 then "." else "") + l)
  {
    Utf8.DecodeAscii(l);
  }

  /** Walking encoded labels found at index p of d collects their text and
      stops at the zero byte after them. */
  lemma {:induction false} WalkEncoded(d: Bytes, p: nat, labels: seq<string>, name: string)
    requires AllValid(labels) && EncodedAt(d, p, labels)
    ensures WalkLabels(d, p, name) == Some(Walked(name + JoinLabels(labels, p != 0), p + |EncodeLabels(labels)|))
    decreases |labels|
  {
    if labels == [] {
      assert name + JoinLabels(labels, p != 0) == name;
    } else {
      var l := labels[0];
      var tail := labels[1..];
      var sep := if p != 0 then "." else "";
      WalkStep(d, p, l, name);
      WalkEncoded(d, p + |l| + 1, tail, name + sep + l);
      assert |EncodeLabels(labels)| == |l| + 1 + |EncodeLabels(tail)|;
      var more := JoinLabels(tail, true);
      assert JoinLabels(labels, p != 0) == sep + l + more;
      JoinStep(name, sep, l, more);
    }
  }

  lemma JoinStep(name: string, sep: string, l: string, more: string)
    ensures name + sep + l + more == name + (sep + l + more)
  {
  }

  /** A first label that does not look like a marker keeps the scheme
      pre-step from seeing one, whatever follows it. */
  lemma FirstLabelNoMarker(l: string, after: Bytes)
    requires ValidLabel(l) && !LooksLikeMarker(l)
    ensures var body := [|l|] + Utf8.AsciiBytes(l) + after;
            !IsHttpMarker(body) && !IsHttpsMarker(body)
  {
    var lb := Utf8.AsciiBytes(l);
    if |l| == 7 {
      AfterLengthByte(|l|, lb, after, 4);
    }
    if |l| == 8 {
      AfterLengthByte(|l|, lb, after, 5);
    }
  }

  /** The bytes after a length byte are the label's own. */
  lemma AfterLengthByte(n: byte, lb: Bytes, after: Bytes, k: nat)
    requires k <= |lb|
    ensures ([n] + lb + after)[1..k + 1] == lb[..k]
  {
  }

  /** The first byte of well-formed labels, or of their terminator, does not
      start a marker. */
  lemma NoMarkerAhead(labels: seq<string>, rest: Bytes)
    requires Encodable(labels)
    ensures var body := EncodeLabels(labels) + [0] + rest;
            body != [] && !IsHttpMarker(body) && !IsHttpsMarker(body)
  {
    var body := EncodeLabels(labels) + [0] + rest;
    if labels != [] {
      var l := labels[0];
      assert ValidLabel(l);
      var after := EncodeLabels(labels[1..]) + [0] + rest;
      assert body == [|l|] + Utf8.AsciiBytes(l) + after;
      FirstLabelNoMarker(l, after);
    } else {
      assert body[0] == 0;
    }
  }

  /** In front of bytes that start no marker, the scheme pre-step recognises
      exactly the scheme written there. */
  lemma StripSchemeBytes(scheme: Scheme, body: Bytes)
    requires body != [] && !IsHttpMarker(body) && !IsHttpsMarker(body)
    ensures StripScheme(SchemeBytes(scheme) + body) == Ok(Stripped(SchemeText(scheme), body))
  {
    var d := SchemeBytes(scheme) + body;
    match scheme
    case NoScheme =>
      assert d == body;
    case Http =>
      assert d[1..5] == HttpBytes;
      assert d[5..] == body;
    case Https =>
      assert d[1..6] == HttpsBytes;
      assert d[6..] == body;
    case HttpThenHttps =>
      assert d[1..5] == HttpBytes;
      assert d[5..][1..6] == HttpsBytes;
      assert d[5..][6..] == body;
  }

  /** The scheme pre-step recognises exactly the encoded scheme in front of
      well-formed labels. */
  lemma StripEncoded(scheme: Scheme, labels: seq<string>, rest: Bytes)
    requires Encodable(labels)
    ensures StripScheme(EncodeName(scheme, labels) + rest)
         == Ok(Stripped(SchemeText(scheme), EncodeLabels(labels) + [0] + rest))
  {
    var body := EncodeLabels(labels) + [0] + rest;
    assert EncodeName(scheme, labels) + rest == SchemeBytes(scheme) + body;
    NoMarkerAhead(labels, rest);
    StripSchemeBytes(scheme, body);
  }

  /** The whole name rule on an encoded name: the scheme text, then the labels
      joined with dots; the walk stops on the encoding's terminator. */
  lemma DecodeEncodedName(scheme: Scheme, labels: seq<string>, rest: Bytes)
    requires Encodable(labels)
    ensures StripScheme(EncodeName(scheme, labels) + rest)
         == Ok(Stripped(SchemeText(scheme), EncodeLabels(labels) + [0] + rest))
    ensures WalkLabels(EncodeLabels(labels) + [0] + rest, 0, SchemeText(scheme))
         == Some(Walked(NameText(scheme, labels), |EncodeLabels(labels)|))
  {
    StripEncoded(scheme, labels, rest);
    WalkEncodedName(SchemeText(scheme), labels, rest);
    assert SchemeText(scheme) + JoinLabels(labels, false) == NameText(scheme, labels);
  }

  /** The label walk over an encoding followed by its terminator reads the
      labels back, joined with dots, after the text it starts from. */
  lemma WalkEncodedName(name: string, labels: seq<string>, rest: Bytes)
    requires AllValid(labels)
    ensures WalkLabels(EncodeLabels(labels) + [0] + rest, 0, name)
         == Some(Walked(name + JoinLabels(labels, false), |EncodeLabels(labels)|))
  {
    EncodedAtEncode(labels, [0] + rest);
    AppendAssoc(EncodeLabels(labels), [0], rest);
    WalkEncoded(EncodeLabels(labels) + [0] + rest, 0, labels, name);
  }

  /** The name the registry tests use, as labels: they can be encoded, the
      encoding is 16 bytes long, and they read back as the name. */
  lemma ExampleLabels()
    ensures Encodable(["www", "example", "com"])
    ensures |EncodeLabels(["www", "example", "com"])| == 16
    ensures NameText(NoScheme, ["www", "example", "com"]) == "www.example.com"
  {
    var labels := ["www", "example", "com"];
    assert labels[1..] == ["example", "com"] && labels[1..][1..] == ["com"] && labels[1..][1..][1..] == [];
    ExampleLabelsValid(labels);
    assert |EncodeLabels(labels)| == 4 + |EncodeLabels(labels[1..])|;
    assert |EncodeLabels(labels[1..])| == 8 + |EncodeLabels(labels[1..][1..])|;
    assert |EncodeLabels(labels[1..][1..])| == 4;
    ExampleJoin(labels);
  }

  lemma ExampleLabelsValid(labels: seq<string>)
    requires labels == ["www", "example", "com"]
    ensures Encodable(labels)
  {
    assert labels[1..] == ["example", "com"] && labels[1..][1..] == ["com"] && labels[1..][1..][1..] == [];
    assert ValidLabel(labels[0]) && ValidLabel(labels[1]) && ValidLabel(labels[2]);
    assert AllValid(labels[1..][1..]);
    assert AllValid(labels[1..]);
    assert AllValid(labels);
    assert |Utf8.AsciiBytes(labels[0])| == 3;
  }

  lemma ExampleJoin(labels: seq<string>)
    requires labels == ["www", "example", "com"]
    ensures JoinLabels(labels, false) == "www.example.com"
  {
    assert labels[1..] == ["example", "com"] && labels[1..][1..] == ["com"] && labels[1..][1..][1..] == [];
    assert JoinLabels(labels[1..][1..], true) == "." + "com" + "";
    assert JoinLabels(labels[1..], true) == "." + "example" + ".com";
    assert JoinLabels(labels, false) == "" + "www" + ".example.com";
  }
}
