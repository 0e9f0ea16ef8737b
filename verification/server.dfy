/**
 * The request handling of `DNSServer`: from the bytes of a datagram to the
 * bytes sent back. A query is parsed, checked to ask for an A record, looked
 * up in the registry and answered; a registration request is parsed and
 * acknowledged. Each exception that escapes the generating step becomes an
 * error response whose response code names the failure: 1 format error,
 * 2 server failure, 3 name error, 4 not implemented (section 4.1.1 of
 * RFC 1035).
 */
module Server {
  import opened Wire
  import opened Errors
  import opened RecordTypes
  import opened CustomTypes
  import opened IPv4Text
  import opened ResponseFactory
  import opened Register
  import opened Labels
  import QueryResolver
  import RegisterResolver

  // ---------------------------------------------------------------------
  // Queries.

  /** `generate_dns_query_response`: the query is read, then answered. */
  function GenerateDnsQueryResponse(reg: DnsRegister, data: Bytes): (r: Result<Bytes>)
    reads reg
    ensures r.Ok? <==>
              (&& QueryResolver.ReadQuery(data).Ok?
               && QueryResolver.ReadQuery(data).value.queryType == A
               && reg.ResolveIp(QueryResolver.ReadQuery(data).value).Some?
               && InetAton(reg.ResolveIp(QueryResolver.ReadQuery(data).value).value).Some?)
    ensures r.Ok? ==>
              var query := QueryResolver.ReadQuery(data).value;
              r.value == GenerateResponse(query, reg.ResolveIp(query).value).value
  {
    var query :- QueryResolver.ReadQuery(data);
    AnswerQuery(reg, query)
  }

  /** The rest of `generate_dns_query_response`: a query for an A record is
      answered with the address the registry holds for its name. A query of
      another type and a name the registry lacks raise, carrying the query's
      transaction id and question section. */
  function AnswerQuery(reg: DnsRegister, query: DnsQuery): (r: Result<Bytes>)
    reads reg
    ensures r.Ok? <==> query.queryType == A && reg.ResolveIp(query).Some? && InetAton(reg.ResolveIp(query).value).Some?
    ensures r.Ok? ==> r.value == GenerateResponse(query, reg.ResolveIp(query).value).value
    ensures query.queryType != A ==>
              r == Err(FunctionalityNotImplementedError(Some(query.transactionId), Some(query.question)))
    ensures query.queryType == A && reg.ResolveIp(query).None? ==>
              r == Err(NoRecordError(Some(query.transactionId), Some(query.question)))
    ensures query.queryType == A && reg.ResolveIp(query).Some? && InetAton(reg.ResolveIp(query).value).None? ==>
              r == Err(Other)
  {
    ToStringIsA(query.queryType);
    if ToString(query.queryType) != "A" then
      Err(FunctionalityNotImplementedError(Some(query.transactionId), Some(query.question)))
    else
      match reg.ResolveIp(query)
      case None => Err(NoRecordError(Some(query.transactionId), Some(query.question)))
      case Some(resolvedIp) => GenerateResponse(query, resolvedIp)
  }

  /** `handle_dns_query`: the generated response, or the error response for
      the exception that escaped. The reply carries the success flags exactly
      when the query parses, asks for an A record, its name is in the registry
      and the registered address is a dotted quad; such a reply is the
      factory's response to the query with that address. */
  function HandleDnsQuery(reg: DnsRegister, data: Bytes): (r: Bytes)
    reads reg
    ensures IsSuccessReply(r) <==>
              (&& QueryResolver.ReadQuery(data).Ok?
               && QueryResolver.ReadQuery(data).value.queryType == A
               && reg.ResolveIp(QueryResolver.ReadQuery(data).value).Some?
               && InetAton(reg.ResolveIp(QueryResolver.ReadQuery(data).value).value).Some?)
    ensures IsSuccessReply(r) ==>
              var query := QueryResolver.ReadQuery(data).value;
              r == GenerateResponse(query, reg.ResolveIp(query).value).value
  {
    match GenerateDnsQueryResponse(reg, data)
    case Ok(response) =>
      var query := QueryResolver.ReadQuery(data).value;
      ResponseLayout(query, reg.ResolveIp(query).value);
      response
    case Err(error) =>
      QueryErrorIsNotSuccess(error, data);
      QueryErrorResponse(error, data)
  }

  /** The `except` clauses of `handle_dns_query`: the three `DNSError`
      classes it names get their response code, the datagram's first two
      bytes as transaction id and the question the exception carries;
      anything else is a server failure sent with both placeholders. */
  function QueryErrorResponse(error: DnsError, data: Bytes): (r: Bytes)
    ensures var q := if error.Other? || error.question.None? then PlaceholderQuestion else error.question.value;
            && (error.FormatError? ==> r == ErrorHeader(Take(data, 2), 1) + q)
            && (error.NoRecordError? ==> r == ErrorHeader(Take(data, 2), 3) + q)
            && (error.FunctionalityNotImplementedError? ==> r == ErrorHeader(Take(data, 2), 4) + q)
            && (error.Other? || error.UnknownRecordTypeError? ==>
                  r == ErrorHeader(PlaceholderTransactionId, 2) + PlaceholderQuestion)
  {
    ErrorResponseOf(1, Some(Take(data, 2)), if error.Other? then None else error.question);
    ErrorResponseOf(3, Some(Take(data, 2)), if error.Other? then None else error.question);
    ErrorResponseOf(4, Some(Take(data, 2)), if error.Other? then None else error.question);
    ErrorResponseOf(2, None, None);
    match error
    case FormatError(_, question) => GenerateErrorResponse(1, Some(Take(data, 2)), question).value
    case NoRecordError(_, question) => GenerateErrorResponse(3, Some(Take(data, 2)), question).value
    case FunctionalityNotImplementedError(_, question) => GenerateErrorResponse(4, Some(Take(data, 2)), question).value
    case _ => GenerateErrorResponse(2, None, None).value
  }

  // ---------------------------------------------------------------------
  // Registration requests.

  /** `generate_register_request_response`: a request that parses and is
      for an A record is acknowledged with its transaction id and one byte
      1; any other record type raises. */
  function GenerateRegisterRequestResponse(data: Bytes): (r: Result<Bytes>)
    ensures r.Ok? <==>
              RegisterResolver.ReadRequest(data).Ok? && RegisterResolver.ReadRequest(data).value.recordType == A
    ensures r.Ok? ==> |data| >= 2 && r.value == data[..2] + [0x01]
    ensures r.Err? ==> (r.error == Malformed || r.error == FunctionalityNotImplementedError(Some(Take(data, 2)), None))
  {
    var request :- RegisterResolver.ReadRequest(data);
    if ToString(request.recordType) != "A" then
      Err(FunctionalityNotImplementedError(Some(request.transactionId), None))
    else
      Ok(request.transactionId + [0x01])
  }

  /** `handle_register_request`: as for queries, but no error response
      carries a question. Since the request reader only ever raises a format
      error, the reply is the acknowledgement, a format error or a
      not-implemented error, never a server failure; the acknowledgement is
      the only three-byte reply. */
  function HandleRegisterRequest(data: Bytes): (r: Bytes)
    ensures |r| == 3 <==>
              RegisterResolver.ReadRequest(data).Ok? && RegisterResolver.ReadRequest(data).value.recordType == A
    ensures || r == Take(data, 2) + [0x01]
            || r == ErrorHeader(Take(data, 2), 1) + PlaceholderQuestion
            || r == ErrorHeader(Take(data, 2), 4) + PlaceholderQuestion
  {
    match GenerateRegisterRequestResponse(data)
    case Ok(response) => response
    case Err(error) => RegisterErrorResponse(error, data)
  }

  /** The `except` clauses of `handle_register_request`: as for queries, but
      without a question. */
  function RegisterErrorResponse(error: DnsError, data: Bytes): (r: Bytes)
    ensures |r| >= 16
    ensures error.FormatError? ==> r == ErrorHeader(Take(data, 2), 1) + PlaceholderQuestion
    ensures error.NoRecordError? ==> r == ErrorHeader(Take(data, 2), 3) + PlaceholderQuestion
    ensures error.FunctionalityNotImplementedError? ==> r == ErrorHeader(Take(data, 2), 4) + PlaceholderQuestion
    ensures error.Other? || error.UnknownRecordTypeError? ==>
              r == ErrorHeader(PlaceholderTransactionId, 2) + PlaceholderQuestion
  {
    ErrorResponseOf(1, Some(Take(data, 2)), None);
    ErrorResponseOf(3, Some(Take(data, 2)), None);
    ErrorResponseOf(4, Some(Take(data, 2)), None);
    ErrorResponseOf(2, None, None);
    match error
    case FormatError(_, _) => GenerateErrorResponse(1, Some(Take(data, 2)), None).value
    case NoRecordError(_, _) => GenerateErrorResponse(3, Some(Take(data, 2)), None).value
    case FunctionalityNotImplementedError(_, _) => GenerateErrorResponse(4, Some(Take(data, 2)), None).value
    case _ => GenerateErrorResponse(2, None, None).value
  }

  // ---------------------------------------------------------------------
  // What a client reads in a reply.

  /** The reply's flags are the success flags: no error, an answer follows. */
  predicate IsSuccessReply(r: Bytes)
  {
    |r| >= 4 && r[2..4] == SuccessFlags
  }

  /** The reply is an error response with this transaction id, response code
      and question section, as a client reads its header. */
  predicate IsErrorReply(r: Bytes, transactionId: Bytes, code: nat, question: Bytes)
  {
    && |r| >= 12
    && var h := QueryResolver.ReadHeader(r);
    && h.transactionId == transactionId
    && QrBit(h.flags) == 1 && Rcode(h.flags) == code
    && h.questionCount == 1 && h.answerCount == 0 && h.authorityCount == 0 && h.additionalCount == 0
    && r[12..] == question
  }

  /** An error response with a transaction id of two bytes reads back as
      such. */
  lemma ErrorReplyReads(transactionId: Bytes, code: byte, question: Bytes)
    requires |transactionId| == 2 && code < 16
    ensures IsErrorReply(ErrorHeader(transactionId, code) + question, transactionId, code, question)
  {
    ReadErrorHeader(transactionId, code, question);
    ErrorFlagBits(code);
  }

  /** No error response with a transaction id of at most two bytes (all the
      handlers pass) carries the success flags where a client looks for them. */
  lemma ErrorReplyIsNotSuccess(transactionId: Bytes, code: byte, question: Bytes)
    requires |transactionId| <= 2 && 1 <= code <= 4
    ensures !IsSuccessReply(ErrorHeader(transactionId, code) + question)
  {
    var r := ErrorHeader(transactionId, code) + question;
    if |transactionId| == 2 {
      assert r[3] == code;
    } else if |transactionId| == 1 {
      assert r[2] == code;
    } else {
      assert r[2] == 0;
    }
  }

  /** No error response the query handler sends carries the success flags. */
  lemma QueryErrorIsNotSuccess(error: DnsError, data: Bytes)
    ensures !IsSuccessReply(QueryErrorResponse(error, data))
  {
    var tid := Take(data, 2);
    match error
    case FormatError(_, question) =>
      ErrorReplyIsNotSuccess(tid, 1, if question.Some? then question.value else PlaceholderQuestion);
    case NoRecordError(_, question) =>
      ErrorReplyIsNotSuccess(tid, 3, if question.Some? then question.value else PlaceholderQuestion);
    case FunctionalityNotImplementedError(_, question) =>
      ErrorReplyIsNotSuccess(tid, 4, if question.Some? then question.value else PlaceholderQuestion);
    case _ =>
      ErrorReplyIsNotSuccess(PlaceholderTransactionId, 2, PlaceholderQuestion);
  }

  /** An answered query: the reply repeats the datagram's transaction id and
      question section, counts one answer, and its answer record carries the
      registered address. */
  lemma QueryAnswerLayout(reg: DnsRegister, data: Bytes)
    requires QueryResolver.ReadQuery(data).Ok?
    requires QueryResolver.ReadQuery(data).value.queryType == A
    requires reg.ResolveIp(QueryResolver.ReadQuery(data).value).Some?
    requires InetAton(reg.ResolveIp(QueryResolver.ReadQuery(data).value).value).Some?
    ensures var r := HandleDnsQuery(reg, data);
            var query := QueryResolver.ReadQuery(data).value;
            var n := |query.question|;
            && QueryResolver.ReadHeader(r) == QueryResolver.Header(data[..2], SuccessFlags, 1, 1, 0, 0)
            && r[12..12 + n] == QueryResolver.QuestionSection(data)
            && r[12 + n..] == Answer(A, InetAton(reg.records[query.domainName]).value)
  {
    var query := QueryResolver.ReadQuery(data).value;
    ResponseLayout(query, reg.ResolveIp(query).value);
  }

  /** A query the resolver finds malformed gets a format error with the
      datagram's first two bytes and the placeholder question. */
  lemma QueryFormatError(reg: DnsRegister, data: Bytes)
    requires QueryResolver.ReadQuery(data) == Err(Malformed)
    ensures HandleDnsQuery(reg, data) == ErrorHeader(Take(data, 2), 1) + PlaceholderQuestion
    ensures |data| >= 2 ==> IsErrorReply(HandleDnsQuery(reg, data), data[..2], 1, PlaceholderQuestion)
  {
    if |data| >= 2 {
      ErrorReplyReads(data[..2], 1, PlaceholderQuestion);
    }
  }

  /** A query with more than one question gets a not-implemented error with
      the placeholder question. */
  lemma QueryMultipleQuestions(reg: DnsRegister, data: Bytes)
    requires var h := QueryResolver.ReadHeader(data);
             QueryResolver.ValidateDnsQueryLength(data, h.authorityCount, h.additionalCount)
    requires QueryResolver.ReadQuestion(QueryResolver.QuestionSection(data)).Ok?
    requires QueryResolver.ReadQuestion(QueryResolver.QuestionSection(data)).value.domainName != ""
    requires FromBytes(data[4..6]) > 1
    ensures |data| >= 2
    ensures IsErrorReply(HandleDnsQuery(reg, data), data[..2], 4, PlaceholderQuestion)
  {
    assert QueryResolver.ReadQuery(data) == Err(FunctionalityNotImplementedError(Some(data[..2]), None));
    ErrorReplyReads(data[..2], 4, PlaceholderQuestion);
  }

  /** A query for a type other than A gets a not-implemented error that
      echoes its question section. */
  lemma QueryNotA(reg: DnsRegister, data: Bytes)
    requires QueryResolver.ReadQuery(data).Ok?
    requires QueryResolver.ReadQuery(data).value.queryType != A
    ensures IsErrorReply(HandleDnsQuery(reg, data), data[..2], 4, QueryResolver.QuestionSection(data))
  {
    ToStringIsA(QueryResolver.ReadQuery(data).value.queryType);
    ErrorReplyReads(data[..2], 4, QueryResolver.QuestionSection(data));
  }

  /** An A query for a name the registry lacks gets a name error that echoes
      its question section. */
  lemma QueryMiss(reg: DnsRegister, data: Bytes)
    requires QueryResolver.ReadQuery(data).Ok?
    requires QueryResolver.ReadQuery(data).value.queryType == A
    requires QueryResolver.ReadQuery(data).value.domainName !in reg.records
    ensures IsErrorReply(HandleDnsQuery(reg, data), data[..2], 3, QueryResolver.QuestionSection(data))
  {
    ErrorReplyReads(data[..2], 3, QueryResolver.QuestionSection(data));
  }

  /** Any other failure is a server failure with both placeholders: the
      resolver's index error, and a registered address `inet_aton` rejects. */
  lemma QueryServerFailure(reg: DnsRegister, data: Bytes)
    requires || QueryResolver.ReadQuery(data) == Err(Other)
             || (&& QueryResolver.ReadQuery(data).Ok?
                 && QueryResolver.ReadQuery(data).value.queryType == A
                 && reg.ResolveIp(QueryResolver.ReadQuery(data).value).Some?
                 && InetAton(reg.ResolveIp(QueryResolver.ReadQuery(data).value).value).None?)
    ensures IsErrorReply(HandleDnsQuery(reg, data), PlaceholderTransactionId, 2, PlaceholderQuestion)
  {
    ErrorReplyReads(PlaceholderTransactionId, 2, PlaceholderQuestion);
  }

  /** A registration request that fails to parse gets a format error with
      the placeholder question. */
  lemma RegistrationFormatError(data: Bytes)
    requires |data| >= 2 && RegisterResolver.ReadRequest(data).Err?
    ensures IsErrorReply(HandleRegisterRequest(data), data[..2], 1, PlaceholderQuestion)
  {
    ErrorReplyReads(data[..2], 1, PlaceholderQuestion);
  }

  /** A registration request for a type other than A gets a not-implemented
      error with the placeholder question. */
  lemma RegistrationNotA(data: Bytes)
    requires RegisterResolver.ReadRequest(data).Ok? && RegisterResolver.ReadRequest(data).value.recordType != A
    ensures |data| >= 2
    ensures IsErrorReply(HandleRegisterRequest(data), data[..2], 4, PlaceholderQuestion)
  {
    ToStringIsA(RegisterResolver.ReadRequest(data).value.recordType);
    ErrorReplyReads(data[..2], 4, PlaceholderQuestion);
  }

  // ---------------------------------------------------------------------
  // Registration and the registry.

  /** The registration handler acknowledges exactly the requests that parse
      and are for an A record. */
  predicate Acknowledged(data: Bytes)
  {
    RegisterResolver.ReadRequest(data).Ok? && RegisterResolver.ReadRequest(data).value.recordType == A
  }

  /** The record data of a registration request: what follows the two
      length bytes after the name. */
  function RegisteredData(data: Bytes): (d: Bytes)
    ensures Acknowledged(data) ==>
              DottedDecimal(d) == RegisterResolver.ReadRequest(data).value.ipAddress
  {
    Drop(data, 5 + RegisterResolver.NameLength(data) + 1 + 2)
  }

  /** The registration handler as its acknowledgement promises: an
      acknowledged request is also stored in the registry, overwriting any
      address the name had; any other request leaves the registry as it
      was. The reply is the one `HandleRegisterRequest` sends. */
  method HandleRegisterRequestAndStore(reg: DnsRegister, data: Bytes) returns (r: Bytes)
    modifies reg
    ensures r == HandleRegisterRequest(data)
    ensures Acknowledged(data) ==>
              var request := RegisterResolver.ReadRequest(data).value;
              reg.records == old(reg.records)[request.domainName := request.ipAddress]
    ensures !Acknowledged(data) ==> reg.records == old(reg.records)
  {
    var request := RegisterResolver.ReadRegisterRequest(data);
    r := HandleRegisterRequest(data);
    if request.Ok? {
      ToStringIsA(request.value.recordType);
      if ToString(request.value.recordType) == "A" {
        reg.RegisterDomain(request.value.domainName, request.value.ipAddress);
      }
    }
  }

  /** Once a registration of four bytes of record data is stored, an A
      query for the registered name is answered, and the answer record
      carries those four bytes. */
  lemma StoredRegistrationAnswered(reg: DnsRegister, requestData: Bytes, queryData: Bytes)
    requires Acknowledged(requestData) && |RegisteredData(requestData)| == 4
    requires var request := RegisterResolver.ReadRequest(requestData).value;
             request.domainName in reg.records && reg.records[request.domainName] == request.ipAddress
    requires QueryResolver.ReadQuery(queryData).Ok? && QueryResolver.ReadQuery(queryData).value.queryType == A
    requires QueryResolver.ReadQuery(queryData).value.domainName == RegisterResolver.ReadRequest(requestData).value.domainName
    ensures IsSuccessReply(HandleDnsQuery(reg, queryData))
    ensures var r := HandleDnsQuery(reg, queryData);
            |r| >= 4 && r[|r| - 4..] == RegisteredData(requestData)
  {
    var address := RegisteredData(requestData);
    var query := QueryResolver.ReadQuery(queryData).value;
    InetAtonOfDotted(address);
    assert reg.ResolveIp(query) == Some(DottedDecimal(address));
    QueryAnswerLayout(reg, queryData);
    AnswerTail(HandleDnsQuery(reg, queryData), 12 + |query.question|, address);
  }

  /** The last four bytes of a reply that ends with an answer record. */
  lemma AnswerTail(r: Bytes, k: nat, address: Bytes)
    requires |address| == 4 && k <= |r| && r[k..] == Answer(A, address)
    ensures |r| >= 4 && r[|r| - 4..] == address
  {
    AnswerFields(A, address);
    assert r[|r| - 4..] == r[k..][12..];
  }

  /** A registration datagram for an A record with a non-empty name and
      non-empty record data is acknowledged with its transaction id, and its
      record data is what an acknowledged request registers. */
  lemma EncodedRegistration(transactionId: Bytes, scheme: Scheme, labels: seq<string>, recordData: Bytes)
    requires |transactionId| == 2 && Encodable(labels) && NameText(scheme, labels) != ""
    requires |SchemeBytes(scheme)| + |EncodeLabels(labels)| < 256 && 0 < |recordData| < 0x1_0000
    ensures var data := RegisterResolver.EncodeRequest(transactionId, A, scheme, labels, recordData);
            && Acknowledged(data) && RegisteredData(data) == recordData
            && RegisterResolver.ReadRequest(data).value.domainName == NameText(scheme, labels)
            && HandleRegisterRequest(data) == transactionId + [0x01]
  {
    var data := RegisterResolver.EncodeRequest(transactionId, A, scheme, labels, recordData);
    RegisterResolver.ReadEncodedRequest(transactionId, A, scheme, labels, recordData);
    RegisterResolver.EncodedRequestLengths(transactionId, A, scheme, labels, recordData);
    RegisterResolver.EncodedRequestFields(transactionId, A, scheme, labels, recordData);
    ToStringIsA(A);
  }

  /** The server as written: a fresh server acknowledges a well-formed A
      registration, and a following A query for the registered name, which
      is not one of the initial names, still gets a name error, because the
      handler never stores what it acknowledges. */
  method UnstoredRegistration(transactionId: Bytes, scheme: Scheme, labels: seq<string>, address: Bytes,
                              queryData: Bytes) returns (acknowledgement: Bytes, answer: Bytes)
    requires |transactionId| == 2 && Encodable(labels) && NameText(scheme, labels) != ""
    requires |SchemeBytes(scheme)| + |EncodeLabels(labels)| < 256 && |address| == 4
    requires NameText(scheme, labels) !in InitialRecords
    requires QueryResolver.ReadQuery(queryData).Ok? && QueryResolver.ReadQuery(queryData).value.queryType == A
    requires QueryResolver.ReadQuery(queryData).value.domainName == NameText(scheme, labels)
    ensures acknowledgement == transactionId + [0x01]
    ensures IsErrorReply(answer, queryData[..2], 3, QueryResolver.QuestionSection(queryData))
  {
    var reg := new DnsRegister();
    var requestData := RegisterResolver.EncodeRequest(transactionId, A, scheme, labels, address);
    EncodedRegistration(transactionId, scheme, labels, address);
    acknowledgement := HandleRegisterRequest(requestData);
    answer := HandleDnsQuery(reg, queryData);
    QueryMiss(reg, queryData);
  }

  /** The same exchange with the registration stored: the query is
      answered, and the answer record carries the registered address. */
  method StoredRegistration(transactionId: Bytes, scheme: Scheme, labels: seq<string>, address: Bytes,
                            queryData: Bytes) returns (acknowledgement: Bytes, answer: Bytes)
    requires |transactionId| == 2 && Encodable(labels) && NameText(scheme, labels) != ""
    requires |SchemeBytes(scheme)| + |EncodeLabels(labels)| < 256 && |address| == 4
    requires QueryResolver.ReadQuery(queryData).Ok? && QueryResolver.ReadQuery(queryData).value.queryType == A
    requires QueryResolver.ReadQuery(queryData).value.domainName == NameText(scheme, labels)
    ensures acknowledgement == transactionId + [0x01]
    ensures IsSuccessReply(answer) && answer[|answer| - 4..] == address
  {
    var reg := new DnsRegister();
    var requestData := RegisterResolver.EncodeRequest(transactionId, A, scheme, labels, address);
    EncodedRegistration(transactionId, scheme, labels, address);
    acknowledgement := HandleRegisterRequestAndStore(reg, requestData);
    answer := HandleDnsQuery(reg, queryData);
    StoredRegistrationAnswered(reg, requestData, queryData);
  }

  /** The exchange of the registry tests on the wire: register
      www.example.com at 1.1.1.1, then ask for its A record. As written the
      server acknowledges the registration and then answers with a name
      error. */
  method UnstoredRegistrationExample() returns (acknowledgement: Bytes, answer: Bytes)
    ensures acknowledgement == [0x12, 0x34, 0x01]
    ensures IsErrorReply(answer, [0x56, 0x78], 3, QueryResolver.EncodeQuestion(NoScheme, ["www", "example", "com"], A, 1))
  {
    var labels := ["www", "example", "com"];
    ExampleLabels();
    var queryData := ExampleQuery(labels);
    ExampleNameIsNew(NameText(NoScheme, labels));
    acknowledgement, answer := UnstoredRegistration([0x12, 0x34], NoScheme, labels, [1, 1, 1, 1], queryData);
  }

  /** The same exchange with the registration stored: the A query is
      answered with 1.1.1.1. */
  method StoredRegistrationExample() returns (acknowledgement: Bytes, answer: Bytes)
    ensures acknowledgement == [0x12, 0x34, 0x01]
    ensures IsSuccessReply(answer) && answer[|answer| - 4..] == [1, 1, 1, 1]
  {
    var labels := ["www", "example", "com"];
    ExampleLabels();
    var queryData := ExampleQuery(labels);
    acknowledgement, answer := StoredRegistration([0x12, 0x34], NoScheme, labels, [1, 1, 1, 1], queryData);
  }

  /** A standard A query with transaction id 0x5678 for the name the labels
      spell. */
  method ExampleQuery(labels: seq<string>) returns (queryData: Bytes)
    requires Encodable(labels) && NameText(NoScheme, labels) != ""
    ensures QueryResolver.ReadQuery(queryData).Ok? && QueryResolver.ReadQuery(queryData).value.queryType == A
    ensures QueryResolver.ReadQuery(queryData).value.domainName == NameText(NoScheme, labels)
    ensures queryData[..2] == [0x56, 0x78]
    ensures QueryResolver.QuestionSection(queryData) == QueryResolver.EncodeQuestion(NoScheme, labels, A, 1)
  {
    queryData := QueryResolver.EncodeQuery([0x56, 0x78], [0x01, 0x00], 1, 0, 0, 0, NoScheme, labels, A, 1, []);
    QueryResolver.ReadEncodedQuery([0x56, 0x78], [0x01, 0x00], 1, 0, 0, 0, NoScheme, labels, A, 1, []);
  }

  lemma ExampleNameIsNew(name: string)
    requires name == "www.example.com"
    ensures name !in InitialRecords
  {
    assert InitialRecords.Keys == {"https://www.google.com", "https://www.yahoo.com",
                                   "https://www.nhl.com", "https://www.python.org"};
  }
}
