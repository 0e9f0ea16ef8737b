/**
 * The value records the resolvers build: a parsed query, its question, and a
 * parsed registration request.
 */
module CustomTypes {
  import opened Wire
  import opened RecordTypes

  /** A parsed query datagram. `question` is the question section exactly as
      it arrived, and `domainName`, `queryType` and `queryClass` are read from it. */
  datatype DnsQuery = DnsQuery(
    originalQuery: Bytes,
    transactionId: Bytes,
    flags: Bytes,
    questionCount: nat,
    answerCount: nat,
    authorityCount: nat,
    additionalCount: nat,
    question: Bytes,
    domainName: string,
    queryType: RecordType,
    queryClass: nat)

  /** A parsed question section; `asBytes` is the section as it arrived. */
  datatype DnsQueryQuestion = DnsQueryQuestion(
    domainName: string,
    queryType: RecordType,
    queryClass: nat,
    asBytes: Bytes)

  /** A parsed registration datagram. */
  datatype RegisterRequest = RegisterRequest(
    originalQuery: Bytes,
    transactionId: Bytes,
    recordType: RecordType,
    domainName: string,
    ipAddress: string)
}
