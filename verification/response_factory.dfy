/**
 * `DNSResponseFactory`: the two byte layouts the server answers with. A
 * successful answer repeats the transaction id and the question of the query
 * and adds one A-style answer record whose owner name is a compression
 * pointer back to the question; an error answer is a bare header carrying
 * the response code, followed by a question section (the query's own, or a
 * fixed placeholder).
 */
module ResponseFactory {
  import opened Wire
  import opened Errors
  import opened RecordTypes
  import opened IPv4Text
  import opened CustomTypes
  import QueryResolver

  /** QR set (a response), opcode 0, RD and RA set, response code 0. */
  const SuccessFlags: Bytes := [0x81, 0x80]

  /** A compression pointer (top two bits set) to offset 12, where the
      question's name starts in the response. */
  const NamePointer: Bytes := [0xC0, 0x0C]

  /** Class IN. */
  const ClassIn: Bytes := [0x00, 0x01]

  /** A time to live of 14 seconds. */
  const Ttl: Bytes := [0x00, 0x00, 0x00, 0x0E]

  /** RDLENGTH 4: the record data is one IPv4 address. */
  const AddressLength: Bytes := [0x00, 0x04]

  /** The question section an error response carries when it has none. */
  const PlaceholderQuestion: Bytes := [0x00, 0x00, 0x00, 0x00, 0x00, 0x01]

  /** The transaction id an error response carries when it has none. */
  const PlaceholderTransactionId: Bytes := [0x00, 0x00]

  // The header flag fields of section 4.1.1 of RFC 1035, read from the two
  // flag bytes.

  function QrBit(flags: Bytes): nat
    requires |flags| == 2
  {
    flags[0] / 128
  }

  function Opcode(flags: Bytes): nat
    requires |flags| == 2
  {
    flags[0] / 8 % 16
  }

  function RdBit(flags: Bytes): nat
    requires |flags| == 2
  {
    flags[0] % 2
  }

  function RaBit(flags: Bytes): nat
    requires |flags| == 2
  {
    flags[1] / 128
  }

  function Rcode(flags: Bytes): nat
    requires |flags| == 2
  {
    flags[1] % 16
  }

  /** The flag bytes of an error response. */
  function ErrorFlags(errorCode: byte): (f: Bytes)
    ensures |f| == 2
  {
    [0x81, errorCode]
  }

  /** The header of a successful response: the query's transaction id, the
      success flags, one question, one answer, no authority and no additional
      records. */
  function SuccessHeader(transactionId: Bytes): (h: Bytes)
    ensures |h| == |transactionId| + 10
  {
    transactionId + SuccessFlags + U16(1) + U16(1) + U16(0) + U16(0)
  }

  /** The answer record: pointer to the question's name, the query's type,
      class IN, the TTL, RDLENGTH and the address. */
  function Answer(queryType: RecordType, address: Bytes): (a: Bytes)
    ensures |a| == 12 + |address|
  {
    NamePointer + ToBytes(queryType) + ClassIn + Ttl + AddressLength + address
  }

  /** `generate_response`: `inet_aton` of an address it cannot read raises,
      and nothing is answered. */
  function GenerateResponse(query: DnsQuery, resolvedIp: string): (r: Result<Bytes>)
    ensures r.Ok? <==> InetAton(resolvedIp).Some?
    ensures r.Err? ==> r.error == Other
    ensures r.Ok? ==> |r.value| == |query.transactionId| + 10 + |query.question| + 16
  {
    match InetAton(resolvedIp)
    case None => Err(Other)
    case Some(address) => Ok(SuccessHeader(query.transactionId) + query.question + Answer(query.queryType, address))
  }

  /** The header of an error response: one question and no records. */
  function ErrorHeader(transactionId: Bytes, errorCode: byte): (h: Bytes)
    ensures |h| == |transactionId| + 10
  {
    transactionId + ErrorFlags(errorCode) + U16(1) + U16(0) + U16(0) + U16(0)
  }

  /** `generate_error_response`: a missing question or transaction id is
      replaced by its placeholder; `bytes([error_code])` raises for a code
      that is not a byte. */
  function GenerateErrorResponse(errorCode: int, transactionId: Option<Bytes>, question: Option<Bytes>): (r: Result<Bytes>)
    ensures r.Ok? <==> 0 <= errorCode < 256
    ensures r.Err? ==> r.error == Other
    ensures r.Ok? ==> |r.value| == 10 + (if transactionId.Some? then |transactionId.value| else 2)
                                      + (if question.Some? then |question.value| else 6)
  {
    var q := if question.None? then PlaceholderQuestion else question.value;
    var tid := if transactionId.None? then PlaceholderTransactionId else transactionId.value;
    if 0 <= errorCode < 256 then Ok(ErrorHeader(tid, errorCode) + q) else Err(Other)
  }

  /** The success flags say: a response to a standard query, recursion
      desired and available, no error. */
  lemma SuccessFlagBits()
    ensures QrBit(SuccessFlags) == 1 && Opcode(SuccessFlags) == 0 && RdBit(SuccessFlags) == 1
    ensures RaBit(SuccessFlags) == 1 && Rcode(SuccessFlags) == 0
  {
  }

  /** An error code below 16 lands in the response-code field unchanged, in a
      response to a standard query with recursion desired and not available. */
  lemma ErrorFlagBits(errorCode: byte)
    requires errorCode < 16
    ensures QrBit(ErrorFlags(errorCode)) == 1 && Opcode(ErrorFlags(errorCode)) == 0
    ensures RdBit(ErrorFlags(errorCode)) == 1 && RaBit(ErrorFlags(errorCode)) == 0
    ensures Rcode(ErrorFlags(errorCode)) == errorCode
  {
  }

  /** Concatenation of bytes regrouped. */
  lemma Regroup(h: Bytes, q: Bytes, a: Bytes)
    ensures h + q + a == h + (q + a)
  {
  }

  /** The success header is the header the query resolver reads back as its
      fields. */
  lemma ReadSuccessHeader(transactionId: Bytes, rest: Bytes)
    requires |transactionId| == 2
    ensures QueryResolver.ReadHeader(SuccessHeader(transactionId) + rest)
            == QueryResolver.Header(transactionId, SuccessFlags, 1, 1, 0, 0)
  {
    QueryResolver.ReadEncodedHeader(transactionId, SuccessFlags, 1, 1, 0, 0, rest);
  }

  lemma ReadErrorHeader(transactionId: Bytes, errorCode: byte, rest: Bytes)
    requires |transactionId| == 2
    ensures QueryResolver.ReadHeader(ErrorHeader(transactionId, errorCode) + rest)
            == QueryResolver.Header(transactionId, ErrorFlags(errorCode), 1, 0, 0, 0)
  {
    QueryResolver.ReadEncodedHeader(transactionId, ErrorFlags(errorCode), 1, 0, 0, 0, rest);
  }

  /** The fields of the answer record, at their offsets. */
  lemma AnswerFields(queryType: RecordType, address: Bytes)
    requires |address| == 4
    ensures var a := Answer(queryType, address);
            && a[..2] == NamePointer
            && a[2..4] == ToBytes(queryType)
            && FromBytes(a[4..6]) == 1
            && FromBytes(a[6..10]) == 14
            && FromBytes(a[10..12]) == |a[12..]| == 4
            && a[12..] == address
  {
    var a := Answer(queryType, address);
    assert a[4..6] == ClassIn && a[6..10] == Ttl && a[10..12] == AddressLength && a[12..] == address;
    FromBytes2(ClassIn);
    FromBytes2(AddressLength);
    var t := Ttl;
    assert t[..3][..2] == [0, 0] && t[..3] == [0, 0, 0];
    FromBytes2([0, 0]);
  }

  /** The name pointer is a compression pointer whose offset is the length
      of the header, so it points at the question's name. */
  lemma NamePointerTargetsQuestion(transactionId: Bytes)
    requires |transactionId| == 2
    ensures NamePointer[0] / 64 == 3
    ensures FromBytes(NamePointer) % 0x4000 == |SuccessHeader(transactionId)|
  {
    FromBytes2(NamePointer);
  }

  /** A successful response, field by field: the header the resolver reads
      back, the query's question section unchanged at offset 12, then the
      answer record carrying the address `inet_aton` gives. */
  lemma ResponseLayout(query: DnsQuery, resolvedIp: string)
    requires |query.transactionId| == 2 && InetAton(resolvedIp).Some?
    ensures var r := GenerateResponse(query, resolvedIp).value;
            var n := |query.question|;
            && QueryResolver.ReadHeader(r) == QueryResolver.Header(query.transactionId, SuccessFlags, 1, 1, 0, 0)
            && r[12..12 + n] == query.question
            && r[12 + n..] == Answer(query.queryType, InetAton(resolvedIp).value)
  {
    var h := SuccessHeader(query.transactionId);
    var a := Answer(query.queryType, InetAton(resolvedIp).value);
    Regroup(h, query.question, a);
    ReadSuccessHeader(query.transactionId, query.question + a);
    QueryResolver.Middle(h, query.question, a);
  }

  /** An error response, field by field: the header carries the (possibly
      placeholder) transaction id, the error code as its second flag byte and
      a question count of one; the (possibly placeholder) question follows. */
  lemma ErrorResponseLayout(errorCode: byte, transactionId: Option<Bytes>, question: Option<Bytes>)
    requires transactionId.Some? ==> |transactionId.value| == 2
    ensures var r := GenerateErrorResponse(errorCode, transactionId, question).value;
            var tid := if transactionId.Some? then transactionId.value else PlaceholderTransactionId;
            var q := if question.Some? then question.value else PlaceholderQuestion;
            && QueryResolver.ReadHeader(r) == QueryResolver.Header(tid, ErrorFlags(errorCode), 1, 0, 0, 0)
            && r[12..] == q
  {
    var tid := if transactionId.Some? then transactionId.value else PlaceholderTransactionId;
    var q := if question.Some? then question.value else PlaceholderQuestion;
    ReadErrorHeader(tid, errorCode, q);
  }

  /** The fixed parts of the two layouts, byte by byte. */
  lemma FixedParts(transactionId: Bytes, errorCode: byte)
    requires |transactionId| == 2
    ensures SuccessHeader(transactionId)
            == transactionId + [0x81, 0x80, 0x00, 0x01, 0x00, 0x01, 0x00, 0x00, 0x00, 0x00]
    ensures ErrorHeader(transactionId, errorCode)
            == transactionId + [0x81, errorCode, 0x00, 0x01, 0x00, 0x00, 0x00, 0x00, 0x00, 0x00]
    ensures Answer(A, [127, 0, 0, 1])
            == [0xC0, 0x0C, 0x00, 0x01, 0x00, 0x01, 0x00, 0x00, 0x00, 0x0E, 0x00, 0x04, 0x7F, 0x00, 0x00, 0x01]
    ensures Answer(A, [192, 168, 1, 1])
            == [0xC0, 0x0C, 0x00, 0x01, 0x00, 0x01, 0x00, 0x00, 0x00, 0x0E, 0x00, 0x04, 0xC0, 0xA8, 0x01, 0x01]
  {
    assert U16(1) == [0x00, 0x01] && U16(0) == [0x00, 0x00];
  }

  /** A successful response is the success header, the question and the
      answer record for the address `inet_aton` gives. */
  lemma ResponseOf(query: DnsQuery, resolvedIp: string, address: Bytes)
    requires InetAton(resolvedIp) == Some(address)
    ensures GenerateResponse(query, resolvedIp)
            == Ok(SuccessHeader(query.transactionId) + query.question + Answer(query.queryType, address))
  {
  }

  /** An error response is the error header and the question section, each
      defaulting to its placeholder. */
  lemma ErrorResponseOf(errorCode: byte, transactionId: Option<Bytes>, question: Option<Bytes>)
    ensures GenerateErrorResponse(errorCode, transactionId, question)
            == Ok(ErrorHeader(if transactionId.Some? then transactionId.value else PlaceholderTransactionId, errorCode)
                  + (if question.Some? then question.value else PlaceholderQuestion))
  {
  }

  /** Concatenation with an empty question section. */
  lemma EmptyQuestion(h: Bytes, a: Bytes)
    ensures h + [] + a == h + a
  {
  }

  /** The success responses the factory's tests expect, for a query with an
      empty question section answered with 127.0.0.1, and for one asking for
      example.com answered with 192.168.1.1. */
  lemma ResponseLoopback(resolvedIp: string)
    requires resolvedIp == "127.0.0.1"
    ensures GenerateResponse(DnsQuery([], [0x00, 0x01], [], 1, 0, 0, 1, [], "example.com", A, 1), resolvedIp)
            == Ok([0x00, 0x01, 0x81, 0x80, 0x00, 0x01, 0x00, 0x01, 0x00, 0x00, 0x00, 0x00]
                  + [0xC0, 0x0C, 0x00, 0x01, 0x00, 0x01, 0x00, 0x00, 0x00, 0x0E, 0x00, 0x04, 0x7F, 0x00, 0x00, 0x01])
  {
    InetAtonExamples();
    LoopbackResponse(resolvedIp);
  }

  lemma ResponseExampleCom(resolvedIp: string)
    requires resolvedIp == "192.168.1.1"
    ensures var question: Bytes := [7, 101, 120, 97, 109, 112, 108, 101, 3, 99, 111, 109, 0, 0x00, 0x01, 0x00, 0x01];
            GenerateResponse(DnsQuery([], [0x12, 0x34], [0x00, 0x00], 1, 0, 0, 0, question, "example.com", A, 1), resolvedIp)
            == Ok([0x12, 0x34, 0x81, 0x80, 0x00, 0x01, 0x00, 0x01, 0x00, 0x00, 0x00, 0x00] + question
                  + [0xC0, 0x0C, 0x00, 0x01, 0x00, 0x01, 0x00, 0x00, 0x00, 0x0E, 0x00, 0x04, 0xC0, 0xA8, 0x01, 0x01])
  {
    InetAtonExamples();
    ExampleComResponse(resolvedIp);
  }

  /** The two responses above, for any address text that converts to the
      test's four bytes. */
  lemma LoopbackResponse(resolvedIp: string)
    requires InetAton(resolvedIp) == Some([127, 0, 0, 1])
    ensures GenerateResponse(DnsQuery([], [0x00, 0x01], [], 1, 0, 0, 1, [], "example.com", A, 1), resolvedIp)
            == Ok([0x00, 0x01, 0x81, 0x80, 0x00, 0x01, 0x00, 0x01, 0x00, 0x00, 0x00, 0x00]
                  + [0xC0, 0x0C, 0x00, 0x01, 0x00, 0x01, 0x00, 0x00, 0x00, 0x0E, 0x00, 0x04, 0x7F, 0x00, 0x00, 0x01])
  {
    var tid: Bytes := [0x00, 0x01];
    var query := DnsQuery([], tid, [], 1, 0, 0, 1, [], "example.com", A, 1);
    ResponseOf(query, resolvedIp, [127, 0, 0, 1]);
    EmptyQuestion(SuccessHeader(tid), Answer(A, [127, 0, 0, 1]));
    FixedParts(tid, 0);
    assert SuccessHeader(tid) == [0x00, 0x01, 0x81, 0x80, 0x00, 0x01, 0x00, 0x01, 0x00, 0x00, 0x00, 0x00];
  }

  lemma ExampleComResponse(resolvedIp: string)
    requires InetAton(resolvedIp) == Some([192, 168, 1, 1])
    ensures var question: Bytes := [7, 101, 120, 97, 109, 112, 108, 101, 3, 99, 111, 109, 0, 0x00, 0x01, 0x00, 0x01];
            GenerateResponse(DnsQuery([], [0x12, 0x34], [0x00, 0x00], 1, 0, 0, 0, question, "example.com", A, 1), resolvedIp)
            == Ok([0x12, 0x34, 0x81, 0x80, 0x00, 0x01, 0x00, 0x01, 0x00, 0x00, 0x00, 0x00] + question
                  + [0xC0, 0x0C, 0x00, 0x01, 0x00, 0x01, 0x00, 0x00, 0x00, 0x0E, 0x00, 0x04, 0xC0, 0xA8, 0x01, 0x01])
  {
    var question: Bytes := [7, 101, 120, 97, 109, 112, 108, 101, 3, 99, 111, 109, 0, 0x00, 0x01, 0x00, 0x01];
    var tid: Bytes := [0x12, 0x34];
    var query := DnsQuery([], tid, [0x00, 0x00], 1, 0, 0, 0, question, "example.com", A, 1);
    ResponseOf(query, resolvedIp, [192, 168, 1, 1]);
    FixedParts(tid, 0);
    assert SuccessHeader(tid) == [0x12, 0x34, 0x81, 0x80, 0x00, 0x01, 0x00, 0x01, 0x00, 0x00, 0x00, 0x00];
  }

  /** The error responses the factory's tests expect: with a transaction id
      and the placeholder question, with both placeholders, and with a
      question of its own. */
  lemma ErrorResponseWithTransactionId()
    ensures GenerateErrorResponse(2, Some([0xAB, 0xCD]), None)
            == Ok([0xAB, 0xCD, 0x81, 0x02, 0x00, 0x01, 0x00, 0x00, 0x00, 0x00, 0x00, 0x00,
                   0x00, 0x00, 0x00, 0x00, 0x00, 0x01])
  {
    var tid: Bytes := [0xAB, 0xCD];
    FixedParts(tid, 2);
    assert GenerateErrorResponse(2, Some(tid), None) == Ok(ErrorHeader(tid, 2) + PlaceholderQuestion);
    assert ErrorHeader(tid, 2) + PlaceholderQuestion
           == [0xAB, 0xCD, 0x81, 0x02, 0x00, 0x01, 0x00, 0x00, 0x00, 0x00, 0x00, 0x00,
              0x00, 0x00, 0x00, 0x00, 0x00, 0x01];
  }

  lemma ErrorResponseDefaults()
    ensures GenerateErrorResponse(3, None, None)
            == Ok([0x00, 0x00, 0x81, 0x03, 0x00, 0x01, 0x00, 0x00, 0x00, 0x00, 0x00, 0x00,
                   0x00, 0x00, 0x00, 0x00, 0x00, 0x01])
  {
    FixedParts(PlaceholderTransactionId, 3);
    assert GenerateErrorResponse(3, None, None) == Ok(ErrorHeader(PlaceholderTransactionId, 3) + PlaceholderQuestion);
    assert ErrorHeader(PlaceholderTransactionId, 3) + PlaceholderQuestion
           == [0x00, 0x00, 0x81, 0x03, 0x00, 0x01, 0x00, 0x00, 0x00, 0x00, 0x00, 0x00,
              0x00, 0x00, 0x00, 0x00, 0x00, 0x01];
  }

  lemma ErrorResponseWithQuestion()
    ensures var question: Bytes := [3, 119, 119, 119, 6, 103, 111, 111, 103, 108, 101, 3, 99, 111, 109, 0, 0x00, 0x01, 0x00, 0x01];
            GenerateErrorResponse(3, Some([0x12, 0x34]), Some(question))
            == Ok([0x12, 0x34, 0x81, 0x03, 0x00, 0x01, 0x00, 0x00, 0x00, 0x00, 0x00, 0x00] + question)
  {
    var question: Bytes := [3, 119, 119, 119, 6, 103, 111, 111, 103, 108, 101, 3, 99, 111, 109, 0, 0x00, 0x01, 0x00, 0x01];
    var tid: Bytes := [0x12, 0x34];
    FixedParts(tid, 3);
    assert GenerateErrorResponse(3, Some(tid), Some(question)) == Ok(ErrorHeader(tid, 3) + question);
    assert ErrorHeader(tid, 3) + question
           == [0x12, 0x34, 0x81, 0x03, 0x00, 0x01, 0x00, 0x00, 0x00, 0x00, 0x00, 0x00] + question;
  }
}
