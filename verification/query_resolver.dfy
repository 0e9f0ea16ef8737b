/**
 * `DNSQueryResolver`: reads a query datagram. The 12-byte header (section
 * 4.1.1 of RFC 1035) gives the transaction id, the flags and four 16-bit
 * counts; the question section runs from byte 12 to the end, minus two bytes
 * for every authority and every additional record the header announces; the
 * question is the name rule of `Labels`, then QTYPE and QCLASS (section 4.1.2
 * of RFC 1035).
 */
module QueryResolver {
  import opened Wire
  import opened Errors
  import opened RecordTypes
  import opened Labels
  import opened CustomTypes

  /** A query datagram needs more than the header plus two bytes for every
      authority and every additional record: the question section between
      them, `queryData[12:len - 2a - 2d]`, is then not empty, and when the
      check fails and that end is not negative, the slice is empty. */
  predicate ValidateDnsQueryLength(queryData: Bytes, authorityCount: nat, additionalCount: nat): (ok: bool)
    ensures ok ==> 12 < |queryData| - authorityCount * 2 - additionalCount * 2 <= |queryData|
                   && |queryData[12..|queryData| - authorityCount * 2 - additionalCount * 2]| > 0
    ensures !ok && authorityCount * 2 + additionalCount * 2 <= |queryData| ==>
              Slice(queryData, 12, |queryData| - authorityCount * 2 - additionalCount * 2) == []
  {
    |queryData| > 12 + authorityCount * 2 + additionalCount * 2
  }

  /** The header fields as the resolver reads them, before any check. */
  datatype Header = Header(
    transactionId: Bytes,
    flags: Bytes,
    questionCount: nat,
    answerCount: nat,
    authorityCount: nat,
    additionalCount: nat)

  function ReadHeader(data: Bytes): (h: Header)
    ensures |data| >= 12 ==> h == Header(data[..2], data[2..4], FromBytes(data[4..6]), FromBytes(data[6..8]),
                                         FromBytes(data[8..10]), FromBytes(data[10..12]))
  {
    Header(Take(data, 2), Slice(data, 2, 4), FromBytes(Slice(data, 4, 6)), FromBytes(Slice(data, 6, 8)),
           FromBytes(Slice(data, 8, 10)), FromBytes(Slice(data, 10, 12)))
  }

  /** The question section of a datagram that passed the length check. */
  function QuestionSection(queryData: Bytes): (q: Bytes)
    requires var h := ReadHeader(queryData); ValidateDnsQueryLength(queryData, h.authorityCount, h.additionalCount)
    ensures q != []
  {
    var h := ReadHeader(queryData);
    queryData[12..|queryData| - h.authorityCount * 2 - h.additionalCount * 2]
  }

  /** After the terminator at `w.pointer`: QTYPE and QCLASS, four bytes that
      must be present; QTYPE must be in the record-type table, QCLASS is kept
      as it is. */
  function FinishQuestion(data: Bytes, w: Walked, original: Bytes): (r: Result<DnsQueryQuestion>)
    ensures r.Err? ==> r.error == Malformed
    ensures r.Ok? <==> |data| >= w.pointer + 5 && IsSupportedCode(FromBytes(data[w.pointer + 1..w.pointer + 3]))
    ensures r.Ok? ==> (r.value.domainName == w.name && r.value.asBytes == original
                       && ToBytes(r.value.queryType) == data[w.pointer + 1..w.pointer + 3]
                       && r.value.queryClass < 0x1_0000
                       && U16(r.value.queryClass) == data[w.pointer + 3..w.pointer + 5])
  {
    if |data| < w.pointer + 5 then Err(Malformed)
    else
      var typeBytes := data[w.pointer + 1..w.pointer + 3];
      var classBytes := data[w.pointer + 3..w.pointer + 5];
      FromBytes2(typeBytes);
      FromBytes2(classBytes);
      match FromCode(FromBytes(typeBytes))
      case Err(_) => Err(Malformed)
      case Ok(t) =>
        U16Unique(typeBytes, Code(t));
        U16Unique(classBytes, FromBytes(classBytes));
        Ok(DnsQueryQuestion(w.name, t, FromBytes(classBytes), original))
  }

  /** `read_dns_query_question` as a function: the scheme pre-step (whose
      index error escapes as `Other`), the label walk, then QTYPE and QCLASS;
      every failure after the pre-step is a `FormatError` without context. */
  function ReadQuestion(questionData: Bytes): (r: Result<DnsQueryQuestion>)
    ensures r == Err(Other) <==> questionData == [] || questionData == [7] + HttpBytes
    ensures r.Err? ==> r.error == Other || r.error == Malformed
    ensures r.Ok? ==> r.value.asBytes == questionData && r.value.queryClass < 0x1_0000
  {
    var s :- StripScheme(questionData);
    match WalkLabels(s.rest, 0, s.prefix)
    case None => Err(Malformed)
    case Some(w) => FinishQuestion(s.rest, w, questionData)
  }

  /** `read_dns_query_question`: the pre-step, then the label loop, then the
      type and class. */
  method ReadDnsQueryQuestion(questionData: Bytes) returns (r: Result<DnsQueryQuestion>)
    ensures r == ReadQuestion(questionData)
  {
    var s :- StripScheme(questionData);
    var w := ReadLabels(s.rest, s.prefix);
    if w.None? {
      return Err(Malformed);
    }
    r := FinishQuestion(s.rest, w.value, questionData);
  }

  /** `read_query`. */
  function ReadQuery(queryData: Bytes): (r: Result<DnsQuery>)
    ensures var h := ReadHeader(queryData);
            !ValidateDnsQueryLength(queryData, h.authorityCount, h.additionalCount) ==> r == Err(Malformed)
    ensures r.Err? ==> (r.error == Malformed || r.error == Other
                        || r.error == FunctionalityNotImplementedError(Some(Take(queryData, 2)), None))
    ensures var h := ReadHeader(queryData);
            r == Err(Other) <==> (ValidateDnsQueryLength(queryData, h.authorityCount, h.additionalCount)
                                  && QuestionSection(queryData) == [7] + HttpBytes)
    ensures r.Ok? ==>
              var q := r.value;
              && |queryData| > 12
              && q.originalQuery == queryData
              && q.transactionId == queryData[..2] && q.flags == queryData[2..4]
              && q.questionCount == FromBytes(queryData[4..6]) <= 1
              && q.answerCount == FromBytes(queryData[6..8])
              && q.authorityCount == FromBytes(queryData[8..10])
              && q.additionalCount == FromBytes(queryData[10..12])
              && q.question == QuestionSection(queryData)
              && q.domainName != ""
              && ReadQuestion(q.question) == Ok(DnsQueryQuestion(q.domainName, q.queryType, q.queryClass, q.question))
  {
    var h := ReadHeader(queryData);
    if !ValidateDnsQueryLength(queryData, h.authorityCount, h.additionalCount) then Err(Malformed)
    else
      var question :- ReadQuestion(QuestionSection(queryData));
      if question.domainName == "" then Err(Malformed)
      else if h.questionCount > 1 then Err(FunctionalityNotImplementedError(Some(h.transactionId), None))
      else
        Ok(DnsQuery(queryData, h.transactionId, h.flags, h.questionCount, h.answerCount,
                    h.authorityCount, h.additionalCount, question.asBytes, question.domainName,
                    question.queryType, question.queryClass))
  }

  /** The length check on the examples of the test suite. */
  lemma ValidateExamples(d17: Bytes, d13: Bytes, d16: Bytes, d11: Bytes)
    requires |d17| == 17 && |d13| == 13 && |d16| == 16 && |d11| == 11
    ensures ValidateDnsQueryLength(d17, 1, 1) && ValidateDnsQueryLength(d13, 0, 0)
    ensures !ValidateDnsQueryLength(d16, 2, 2) && !ValidateDnsQueryLength(d11, 0, 0)
  {
  }

  // ---------------------------------------------------------------------
  // The partner: a query datagram written from its fields.

  /** The 12-byte header. */
  function EncodeHeader(transactionId: Bytes, flags: Bytes, questionCount: nat, answerCount: nat,
                        authorityCount: nat, additionalCount: nat): (h: Bytes)
    requires |transactionId| == 2 && |flags| == 2
    requires questionCount < 0x1_0000 && answerCount < 0x1_0000
    requires authorityCount < 0x1_0000 && additionalCount < 0x1_0000
    ensures |h| == 12
  {
    transactionId + flags + U16(questionCount) + U16(answerCount) + U16(authorityCount) + U16(additionalCount)
  }

  /** QTYPE and QCLASS. */
  function TypeAndClass(queryType: RecordType, queryClass: nat): (b: Bytes)
    requires queryClass < 0x1_0000
    ensures |b| == 4
  {
    ToBytes(queryType) + U16(queryClass)
  }

  /** A question: the name, then QTYPE and QCLASS. */
  function EncodeQuestion(scheme: Scheme, labels: seq<string>, queryType: RecordType, queryClass: nat): Bytes
    requires queryClass < 0x1_0000 && Encodable(labels)
  {
    EncodeName(scheme, labels) + TypeAndClass(queryType, queryClass)
  }

  /** A query with one question, followed by the two bytes the resolver
      reserves for every authority and every additional record. */
  function EncodeQuery(transactionId: Bytes, flags: Bytes, questionCount: nat, answerCount: nat,
                       authorityCount: nat, additionalCount: nat,
                       scheme: Scheme, labels: seq<string>, queryType: RecordType, queryClass: nat,
                       trailer: Bytes): Bytes
    requires |transactionId| == 2 && |flags| == 2
    requires questionCount < 0x1_0000 && answerCount < 0x1_0000
    requires authorityCount < 0x1_0000 && additionalCount < 0x1_0000
    requires queryClass < 0x1_0000 && Encodable(labels)
    requires |trailer| == authorityCount * 2 + additionalCount * 2
  {
    EncodeHeader(transactionId, flags, questionCount, answerCount, authorityCount, additionalCount)
    + EncodeQuestion(scheme, labels, queryType, queryClass) + trailer
  }

  /** The question of an encoded query reads back as its name, type and class. */
  lemma ReadEncodedQuestion(scheme: Scheme, labels: seq<string>, queryType: RecordType, queryClass: nat)
    requires queryClass < 0x1_0000 && Encodable(labels)
    ensures var q := EncodeQuestion(scheme, labels, queryType, queryClass);
            ReadQuestion(q) == Ok(DnsQueryQuestion(NameText(scheme, labels), queryType, queryClass, q))
  {
    var tail := TypeAndClass(queryType, queryClass);
    var q := EncodeQuestion(scheme, labels, queryType, queryClass);
    var body := EncodeLabels(labels) + [0] + tail;
    var w := Walked(NameText(scheme, labels), |EncodeLabels(labels)|);
    DecodeEncodedName(scheme, labels, tail);
    ReadQuestionSteps(q, Stripped(SchemeText(scheme), body), w);
    FinishEncoded(EncodeLabels(labels), queryType, queryClass, NameText(scheme, labels), q);
  }

  /** The three steps of the question reader, once the first two succeed. */
  lemma ReadQuestionSteps(q: Bytes, s: Stripped, w: Walked)
    requires StripScheme(q) == Ok(s) && WalkLabels(s.rest, 0, s.prefix) == Some(w)
    ensures ReadQuestion(q) == FinishQuestion(s.rest, w, q)
  {
  }

  /** Type and class written after a terminator read back as themselves. */
  lemma FinishEncoded(e: Bytes, queryType: RecordType, queryClass: nat, name: string, original: Bytes)
    requires queryClass < 0x1_0000
    ensures FinishQuestion(e + [0] + TypeAndClass(queryType, queryClass), Walked(name, |e|), original)
            == Ok(DnsQueryQuestion(name, queryType, queryClass, original))
  {
    var data := e + [0] + TypeAndClass(queryType, queryClass);
    var p := |e|;
    assert data[p + 1..p + 3] == ToBytes(queryType);
    assert data[p + 3..p + 5] == U16(queryClass);
    ToBytesRoundTrip(queryType, queryType);
    FromCodeOfCode(queryType);
    U16RoundTrip(queryClass);
  }

  /** The header of an encoded query reads back as its fields. */
  lemma ReadEncodedHeader(transactionId: Bytes, flags: Bytes, questionCount: nat, answerCount: nat,
                          authorityCount: nat, additionalCount: nat, rest: Bytes)
    requires |transactionId| == 2 && |flags| == 2
    requires questionCount < 0x1_0000 && answerCount < 0x1_0000
    requires authorityCount < 0x1_0000 && additionalCount < 0x1_0000
    ensures var data := EncodeHeader(transactionId, flags, questionCount, answerCount, authorityCount, additionalCount) + rest;
            ReadHeader(data) == Header(transactionId, flags, questionCount, answerCount, authorityCount, additionalCount)
  {
    var h := EncodeHeader(transactionId, flags, questionCount, answerCount, authorityCount, additionalCount);
    var data := h + rest;
    assert data[..2] == transactionId && data[2..4] == flags;
    assert data[4..6] == U16(questionCount) && data[6..8] == U16(answerCount);
    assert data[8..10] == U16(authorityCount) && data[10..12] == U16(additionalCount);
    U16RoundTrip(questionCount);
    U16RoundTrip(answerCount);
    U16RoundTrip(authorityCount);
    U16RoundTrip(additionalCount);
  }

  /** The middle part of a three-part sequence. */
  lemma Middle(h: Bytes, q: Bytes, t: Bytes)
    ensures (h + q + t)[|h|..|h + q + t| - |t|] == q
  {
  }

  /** Reading an encoded query gives back every field it was written from;
      an empty name and a question count above one are refused as the
      resolver refuses them. */
  lemma ReadEncodedQuery(transactionId: Bytes, flags: Bytes, questionCount: nat, answerCount: nat,
                         authorityCount: nat, additionalCount: nat,
                         scheme: Scheme, labels: seq<string>, queryType: RecordType, queryClass: nat,
                         trailer: Bytes)
    requires |transactionId| == 2 && |flags| == 2
    requires questionCount < 0x1_0000 && answerCount < 0x1_0000
    requires authorityCount < 0x1_0000 && additionalCount < 0x1_0000
    requires queryClass < 0x1_0000 && Encodable(labels)
    requires |trailer| == authorityCount * 2 + additionalCount * 2
    ensures var data := EncodeQuery(transactionId, flags, questionCount, answerCount, authorityCount, additionalCount,
                                    scheme, labels, queryType, queryClass, trailer);
            ReadQuery(data)
            == if NameText(scheme, labels) == "" then Err(Malformed)
               else if questionCount > 1 then Err(FunctionalityNotImplementedError(Some(transactionId), None))
               else Ok(DnsQuery(data, transactionId, flags, questionCount, answerCount, authorityCount, additionalCount,
                                EncodeQuestion(scheme, labels, queryType, queryClass),
                                NameText(scheme, labels), queryType, queryClass))
  {
    var header := Header(transactionId, flags, questionCount, answerCount, authorityCount, additionalCount);
    var question := DnsQueryQuestion(NameText(scheme, labels), queryType, queryClass,
                                     EncodeQuestion(scheme, labels, queryType, queryClass));
    EncodedQueryParts(transactionId, flags, questionCount, answerCount, authorityCount, additionalCount,
                      scheme, labels, queryType, queryClass, trailer);
    ReadQuerySteps(EncodeQuery(transactionId, flags, questionCount, answerCount, authorityCount, additionalCount,
                               scheme, labels, queryType, queryClass, trailer), header, question);
  }

  /** The header and the question of an encoded query read back. */
  lemma EncodedQueryParts(transactionId: Bytes, flags: Bytes, questionCount: nat, answerCount: nat,
                          authorityCount: nat, additionalCount: nat,
                          scheme: Scheme, labels: seq<string>, queryType: RecordType, queryClass: nat,
                          trailer: Bytes)
    requires |transactionId| == 2 && |flags| == 2
    requires questionCount < 0x1_0000 && answerCount < 0x1_0000
    requires authorityCount < 0x1_0000 && additionalCount < 0x1_0000
    requires queryClass < 0x1_0000 && Encodable(labels)
    requires |trailer| == authorityCount * 2 + additionalCount * 2
    ensures var data := EncodeQuery(transactionId, flags, questionCount, answerCount, authorityCount, additionalCount,
                                    scheme, labels, queryType, queryClass, trailer);
            var q := EncodeQuestion(scheme, labels, queryType, queryClass);
            && ReadHeader(data) == Header(transactionId, flags, questionCount, answerCount, authorityCount, additionalCount)
            && ValidateDnsQueryLength(data, authorityCount, additionalCount)
            && ReadQuestion(QuestionSection(data)) == Ok(DnsQueryQuestion(NameText(scheme, labels), queryType, queryClass, q))
  {
    var h := EncodeHeader(transactionId, flags, questionCount, answerCount, authorityCount, additionalCount);
    var q := EncodeQuestion(scheme, labels, queryType, queryClass);
    ReadEncodedHeader(transactionId, flags, questionCount, answerCount, authorityCount, additionalCount, q + trailer);
    AppendAssoc(h, q, trailer);
    ReadEncodedQuestion(scheme, labels, queryType, queryClass);
    QuestionBetween(h + q + trailer, h, q, trailer);
  }

  /** A datagram made of a header, a question and a trailer as long as the
      header's counts say passes the length check, and its question section
      is the question. */
  lemma QuestionBetween(data: Bytes, h: Bytes, q: Bytes, trailer: Bytes)
    requires data == h + q + trailer && |h| == 12 && q != []
    requires |trailer| == ReadHeader(data).authorityCount * 2 + ReadHeader(data).additionalCount * 2
    ensures ValidateDnsQueryLength(data, ReadHeader(data).authorityCount, ReadHeader(data).additionalCount)
    ensures QuestionSection(data) == q
  {
    Middle(h, q, trailer);
  }

  /** `read_query` once the header is read, the length check passed and the
      question read. */
  lemma ReadQuerySteps(data: Bytes, h: Header, question: DnsQueryQuestion)
    requires ReadHeader(data) == h && ValidateDnsQueryLength(data, h.authorityCount, h.additionalCount)
    requires ReadQuestion(QuestionSection(data)) == Ok(question)
    ensures ReadQuery(data)
            == if question.domainName == "" then Err(Malformed)
               else if h.questionCount > 1 then Err(FunctionalityNotImplementedError(Some(h.transactionId), None))
               else Ok(DnsQuery(data, h.transactionId, h.flags, h.questionCount, h.answerCount,
                                h.authorityCount, h.additionalCount, question.asBytes, question.domainName,
                                question.queryType, question.queryClass))
  {
  }

  /** A first label of seven bytes that starts with "http" is taken for the
      scheme marker: for `httpbin.org` the pre-step drops `\x07http`, the walk
      then reads "b" (98) as a label length past the end, and the question is
      refused as malformed. */
  lemma HttpLikeFirstLabel(questionData: Bytes)
    requires questionData == [7, 104, 116, 116, 112, 98, 105, 110, 3, 111, 114, 103, 0, 0, 1, 0, 1]
    ensures StripScheme(questionData) == Ok(Stripped("http://", questionData[5..]))
    ensures ReadQuestion(questionData) == Err(Malformed)
  {
    var rest := questionData[5..];
    assert questionData[1..5] == HttpBytes;
    assert !IsHttpsMarker(rest);
    assert WalkLabels(rest, 0, "http://") == None;
  }
}
