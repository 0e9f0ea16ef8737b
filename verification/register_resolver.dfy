/**
 * `RegisterRequestResolver`: reads a registration datagram, a format of this
 * server's own:
 *
 *   transaction id (2) | record type (2) | name length L (1) |
 *   name (L + 1, zero terminator included) | data length R (2) | data (R)
 *
 * The name follows the rule of `Labels`; the data is rendered as dotted
 * decimal, one component per byte. Every failure of `read_request` is a
 * `FormatError` without context.
 */
module RegisterResolver {
  import opened Wire
  import opened Errors
  import opened RecordTypes
  import opened Labels
  import opened IPv4Text
  import opened CustomTypes

  /** The datagram is exactly as long as its two length fields say. */
  predicate ValidateRegisterRequestLength(requestData: Bytes, domainNameLength: nat, recordDataLength: nat)
  {
    |requestData| == 5 + domainNameLength + 1 + 2 + recordDataLength
  }

  /** What the length check means: after the transaction id, the type, the
      name-length byte, the name with its terminator and the data-length
      field, exactly the announced record data is left. */
  lemma ValidLengthLeavesRecordData(requestData: Bytes, domainNameLength: nat, recordDataLength: nat)
    ensures ValidateRegisterRequestLength(requestData, domainNameLength, recordDataLength)
            <==> |requestData| >= 8 + domainNameLength
                 && |Drop(requestData, 8 + domainNameLength)| == recordDataLength
  {
  }

  /** `read_register_request_domain_name` as a function: the scheme pre-step
      (whose index error escapes as `Other`), then the label walk, whose
      failures are `FormatError`s. Bytes after the terminator are ignored. */
  function ReadDomainName(domainNameData: Bytes): (r: Result<string>)
    ensures r == Err(Other) <==> domainNameData == [] || domainNameData == [7] + HttpBytes
    ensures r.Err? ==> r.error == Other || r.error == Malformed
  {
    var s :- StripScheme(domainNameData);
    match WalkLabels(s.rest, 0, s.prefix)
    case None => Err(Malformed)
    case Some(w) => Ok(w.name)
  }

  /** `read_register_request_domain_name`: the pre-step, then the label loop. */
  method ReadRegisterRequestDomainName(domainNameData: Bytes) returns (r: Result<string>)
    ensures r == ReadDomainName(domainNameData)
  {
    var s :- StripScheme(domainNameData);
    var w := ReadLabels(s.rest, s.prefix);
    if w.None? {
      return Err(Malformed);
    }
    return Ok(w.value.name);
  }

  /** `read_register_request_ip_address`: each byte in decimal, "." between
      them. The loop never fails: every byte has a decimal form. */
  method ReadRegisterRequestIpAddress(ipAddressBytes: Bytes) returns (ipAddress: string)
    ensures ipAddress == DottedDecimal(ipAddressBytes)
  {
    ipAddress := "";
    for i := 0 to |ipAddressBytes|
      invariant ipAddress == DottedDecimal(ipAddressBytes[..i])
    {
      if i != 0 {
        ipAddress := ipAddress + ".";
      }
      var octet := Slice(ipAddressBytes, i, i + 1);
      FromBytes1(octet);
      ipAddress := ipAddress + DecimalString(FromBytes(octet));
      assert ipAddressBytes[..i + 1][..i] == ipAddressBytes[..i];
    }
    assert ipAddressBytes[..|ipAddressBytes|] == ipAddressBytes;
  }

  /** The name length field, `int.from_bytes(data[4:5])`; a missing byte
      reads as 0. */
  function NameLength(data: Bytes): (l: nat)
    ensures |data| >= 5 ==> l == data[4]
  {
    var b := Slice(data, 4, 5);
    if |data| >= 5 then FromBytes1(b); FromBytes(b) else FromBytes(b)
  }

  /** The record data length field: the two bytes after the name. */
  function DataLength(data: Bytes): (n: nat)
    ensures var nameEnd := 5 + NameLength(data) + 1;
            nameEnd + 2 <= |data| ==> n == FromBytes(data[nameEnd..nameEnd + 2]) < 0x1_0000
  {
    var nameEnd := 5 + NameLength(data) + 1;
    var b := Slice(data, nameEnd, nameEnd + 2);
    if nameEnd + 2 <= |data| then FromBytes2(b); FromBytes(b) else FromBytes(b)
  }

  /** `read_request`. */
  function ReadRequest(requestData: Bytes): (r: Result<RegisterRequest>)
    ensures r.Err? ==> r.error == Malformed
    ensures !ValidateRegisterRequestLength(requestData, NameLength(requestData), DataLength(requestData))
            ==> r.Err?
    ensures r.Ok? ==>
              var nameEnd := 5 + NameLength(requestData) + 1;
              && nameEnd + 2 < |requestData|
              && r.value.originalQuery == requestData
              && r.value.transactionId == requestData[..2]
              && ToBytes(r.value.recordType) == requestData[2..4]
              && ReadDomainName(requestData[5..nameEnd]) == Ok(r.value.domainName)
              && r.value.domainName != ""
              && r.value.ipAddress == DottedDecimal(requestData[nameEnd + 2..])
  {
    var transactionId := Take(requestData, 2);
    var recordType := FromBytes(Slice(requestData, 2, 4));
    var domainNameLength := NameLength(requestData);
    var nameEnd := 5 + domainNameLength + 1;
    var recordDataLength := DataLength(requestData);
    if !ValidateRegisterRequestLength(requestData, domainNameLength, recordDataLength) then Err(Malformed)
    else
      match ReadDomainName(requestData[5..nameEnd])
      case Err(_) => Err(Malformed)
      case Ok(domainName) =>
        if domainName == "" then Err(Malformed)
        else
          var ipAddress := DottedDecimal(requestData[nameEnd + 2..]);
          if ipAddress == "" then Err(Malformed)
          else
            match FromCode(recordType)
            case Err(_) => Err(Malformed)
            case Ok(t) =>
              FromBytes2(requestData[2..4]);
              U16Unique(requestData[2..4], recordType);
              Ok(RegisterRequest(requestData, transactionId, t, domainName, ipAddress))
  }

  /** `read_request`, with the two loops as methods. */
  method ReadRegisterRequest(requestData: Bytes) returns (r: Result<RegisterRequest>)
    ensures r == ReadRequest(requestData)
  {
    var transactionId := Take(requestData, 2);
    var recordType := FromBytes(Slice(requestData, 2, 4));
    var domainNameLength := NameLength(requestData);
    var nameEnd := 5 + domainNameLength + 1;
    var recordDataLength := DataLength(requestData);
    if !ValidateRegisterRequestLength(requestData, domainNameLength, recordDataLength) {
      assert ReadRequest(requestData) == Err(Malformed);
      return Err(Malformed);
    }
    var domainName := ReadRegisterRequestDomainName(requestData[5..nameEnd]);
    if domainName.Err? || domainName.value == "" {
      assert ReadRequest(requestData) == Err(Malformed);
      return Err(Malformed);
    }
    var ipAddress := ReadRegisterRequestIpAddress(requestData[nameEnd + 2..]);
    if ipAddress == "" {
      assert ReadRequest(requestData) == Err(Malformed);
      return Err(Malformed);
    }
    var t := FromCode(recordType);
    if t.Err? {
      assert ReadRequest(requestData) == Err(Malformed);
      return Err(Malformed);
    }
    FromBytes2(requestData[2..4]);
    U16Unique(requestData[2..4], recordType);
    r := Ok(RegisterRequest(requestData, transactionId, t.value, domainName.value, ipAddress));
  }

  // ---------------------------------------------------------------------
  // The partner: a registration datagram written from its fields.

  /** A registration for a name and its record data. The length byte counts
      the name without its terminator. */
  function EncodeRequest(transactionId: Bytes, recordType: RecordType, scheme: Scheme, labels: seq<string>,
                         recordData: Bytes): Bytes
    requires |transactionId| == 2 && Encodable(labels)
    requires |SchemeBytes(scheme)| + |EncodeLabels(labels)| < 256 && |recordData| < 0x1_0000
  {
    var name := EncodeName(scheme, labels);
    transactionId + ToBytes(recordType) + [|name| - 1] + name + U16(|recordData|) + recordData
  }

  /** The name rule reads an encoded name back as its text. */
  lemma ReadEncodedDomainName(scheme: Scheme, labels: seq<string>)
    requires Encodable(labels)
    ensures ReadDomainName(EncodeName(scheme, labels)) == Ok(NameText(scheme, labels))
  {
    var empty: Bytes := [];
    DecodeEncodedName(scheme, labels, empty);
    assert EncodeName(scheme, labels) + empty == EncodeName(scheme, labels);
  }

  /** Where the six fields of a registration datagram sit. */
  lemma RequestLayout(a: Bytes, b: Bytes, n: byte, name: Bytes, u: Bytes, data: Bytes)
    requires |a| == 2 && |b| == 2 && |u| == 2
    ensures var d := a + b + [n] + name + u + data;
            && |d| == 7 + |name| + |data|
            && d[..2] == a && d[2..4] == b && d[4..5] == [n]
            && d[5..5 + |name|] == name
            && d[5 + |name|..7 + |name|] == u
            && d[7 + |name|..] == data
  {
    var d := a + b + [n] + name + u + data;
    assert d[5..5 + |name|] == name;
    assert d[5 + |name|..7 + |name|] == u;
  }

  /** `read_request` on a datagram whose fields are known: the name bytes
      sit at index 5, the record data after them and their length field. */
  lemma ReadRequestOf(data: Bytes, transactionId: Bytes, t: RecordType, nameBytes: Bytes, name: string,
                      recordData: Bytes)
    requires ValidateRegisterRequestLength(data, NameLength(data), DataLength(data))
    requires data[5..5 + NameLength(data) + 1] == nameBytes && data[5 + NameLength(data) + 1 + 2..] == recordData
    requires Take(data, 2) == transactionId && FromCode(FromBytes(Slice(data, 2, 4))) == Ok(t)
    requires ReadDomainName(nameBytes) == Ok(name)
    ensures ReadRequest(data)
            == if name == "" || recordData == [] then Err(Malformed)
               else Ok(RegisterRequest(data, transactionId, t, name, DottedDecimal(recordData)))
  {
  }

  /** The two length fields of an encoded registration read back and pass
      the check. */
  lemma EncodedRequestLengths(transactionId: Bytes, recordType: RecordType, scheme: Scheme, labels: seq<string>,
                              recordData: Bytes)
    requires |transactionId| == 2 && Encodable(labels)
    requires |SchemeBytes(scheme)| + |EncodeLabels(labels)| < 256 && |recordData| < 0x1_0000
    ensures var data := EncodeRequest(transactionId, recordType, scheme, labels, recordData);
            && NameLength(data) == |EncodeName(scheme, labels)| - 1
            && DataLength(data) == |recordData|
            && ValidateRegisterRequestLength(data, NameLength(data), DataLength(data))
  {
    var name := EncodeName(scheme, labels);
    var data := EncodeRequest(transactionId, recordType, scheme, labels, recordData);
    RequestLayout(transactionId, ToBytes(recordType), |name| - 1, name, U16(|recordData|), recordData);
    assert NameLength(data) == |name| - 1;
    U16RoundTrip(|recordData|);
  }

  /** The other fields of an encoded registration read back. */
  lemma EncodedRequestFields(transactionId: Bytes, recordType: RecordType, scheme: Scheme, labels: seq<string>,
                             recordData: Bytes)
    requires |transactionId| == 2 && Encodable(labels)
    requires |SchemeBytes(scheme)| + |EncodeLabels(labels)| < 256 && |recordData| < 0x1_0000
    ensures var data := EncodeRequest(transactionId, recordType, scheme, labels, recordData);
            var name := EncodeName(scheme, labels);
            && |data| == 7 + |name| + |recordData|
            && data[5..5 + |name|] == name
            && data[7 + |name|..] == recordData
            && Take(data, 2) == transactionId
            && FromCode(FromBytes(Slice(data, 2, 4))) == Ok(recordType)
  {
    var name := EncodeName(scheme, labels);
    var data := EncodeRequest(transactionId, recordType, scheme, labels, recordData);
    RequestLayout(transactionId, ToBytes(recordType), |name| - 1, name, U16(|recordData|), recordData);
    LeadingFields(data, transactionId, recordType);
  }

  /** A datagram that starts with a transaction id and a record type's wire
      form reads both back. */
  lemma LeadingFields(data: Bytes, transactionId: Bytes, recordType: RecordType)
    requires |data| >= 4 && |transactionId| == 2
    requires data[..2] == transactionId && data[2..4] == ToBytes(recordType)
    ensures Take(data, 2) == transactionId && FromCode(FromBytes(Slice(data, 2, 4))) == Ok(recordType)
  {
    ToBytesRoundTrip(recordType, recordType);
    FromCodeOfCode(recordType);
  }

  /** Reading an encoded registration gives back its fields, the record data
      in dotted decimal; an empty name or empty record data is refused. */
  lemma ReadEncodedRequest(transactionId: Bytes, recordType: RecordType, scheme: Scheme, labels: seq<string>,
                           recordData: Bytes)
    requires |transactionId| == 2 && Encodable(labels)
    requires |SchemeBytes(scheme)| + |EncodeLabels(labels)| < 256 && |recordData| < 0x1_0000
    ensures var data := EncodeRequest(transactionId, recordType, scheme, labels, recordData);
            ReadRequest(data)
            == if NameText(scheme, labels) == "" || recordData == [] then Err(Malformed)
               else Ok(RegisterRequest(data, transactionId, recordType, NameText(scheme, labels),
                                       DottedDecimal(recordData)))
  {
    var data := EncodeRequest(transactionId, recordType, scheme, labels, recordData);
    EncodedRequestReadable(transactionId, recordType, scheme, labels, recordData);
    ReadRequestWithName(data, transactionId, recordType, scheme, labels, recordData);
  }

  /** `ReadRequestOf` for a datagram whose name field is an encoded name. */
  lemma ReadRequestWithName(data: Bytes, transactionId: Bytes, recordType: RecordType, scheme: Scheme,
                            labels: seq<string>, recordData: Bytes)
    requires Encodable(labels)
    requires ValidateRegisterRequestLength(data, NameLength(data), DataLength(data))
    requires data[5..5 + NameLength(data) + 1] == EncodeName(scheme, labels)
    requires data[5 + NameLength(data) + 1 + 2..] == recordData
    requires Take(data, 2) == transactionId && FromCode(FromBytes(Slice(data, 2, 4))) == Ok(recordType)
    ensures ReadRequest(data)
            == if NameText(scheme, labels) == "" || recordData == [] then Err(Malformed)
               else Ok(RegisterRequest(data, transactionId, recordType, NameText(scheme, labels),
                                       DottedDecimal(recordData)))
  {
    ReadEncodedDomainName(scheme, labels);
    ReadRequestOf(data, transactionId, recordType, EncodeName(scheme, labels), NameText(scheme, labels), recordData);
  }

  /** An encoded registration meets every premise of `ReadRequestOf`. */
  lemma EncodedRequestReadable(transactionId: Bytes, recordType: RecordType, scheme: Scheme, labels: seq<string>,
                               recordData: Bytes)
    requires |transactionId| == 2 && Encodable(labels)
    requires |SchemeBytes(scheme)| + |EncodeLabels(labels)| < 256 && |recordData| < 0x1_0000
    ensures var data := EncodeRequest(transactionId, recordType, scheme, labels, recordData);
            && ValidateRegisterRequestLength(data, NameLength(data), DataLength(data))
            && data[5..5 + NameLength(data) + 1] == EncodeName(scheme, labels)
            && data[5 + NameLength(data) + 1 + 2..] == recordData
            && Take(data, 2) == transactionId && FromCode(FromBytes(Slice(data, 2, 4))) == Ok(recordType)
  {
    EncodedRequestLengths(transactionId, recordType, scheme, labels, recordData);
    EncodedRequestFields(transactionId, recordType, scheme, labels, recordData);
  }
}
