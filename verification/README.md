# A verified model of a small DNS server's message handling

The server answers two kinds of UDP datagram:

- **DNS queries** (the header and question layout of RFC 1035). A query is parsed by
  `DNSQueryResolver`. If it asks for an A record whose name the in-memory `DNSRegister`
  holds, it is answered with one answer record built by `DNSResponseFactory`. Otherwise it
  gets an error response whose RCODE names the failure: 1 format error, 2 server failure,
  3 name error, 4 not implemented.
- **Registration requests** in a format of the server's own:
  transaction id, record type, name length, name, data length, data.
  They are parsed by `RegisterRequestResolver` and acknowledged with the transaction id
  followed by one byte 1.

The model is a set of Dafny modules: one per source file of that core, plus shared helper modules
(`Wire`, `Errors`, `Utf8`, `Labels`, `IPv4Text`) for what several of those files rely on:

| module | file | models |
|---|---|---|
| `Wire` | `wire.dfy` | Python `bytes`: clamped slicing and big-endian `int.from_bytes` |
| `Errors` | `errors.dfy` | the `DNSError` classes and "any other exception", as the `Err` side of a `Result` |
| `RecordTypes` | `record_type.dfy` | `DNSRecordType`: the ten TYPE codes, their mnemonics and wire forms |
| `CustomTypes` | `custom_types.dfy` | the value records `DNSQuery`, `DNSQueryQuestion`, `RegisterRequest` |
| `Utf8` | `utf8.dfy` | strict `bytes.decode("utf-8")` |
| `Labels` | `labels.dfy` | the name rule both resolvers share, plus its encoder |
| `IPv4Text` | `ipv4_text.dfy` | the dotted-decimal rendering of record data, and `socket.inet_aton` on dotted quads |
| `QueryResolver` | `query_resolver.dfy` | `DNSQueryResolver`, plus an encoder for query datagrams |
| `RegisterResolver` | `register_resolver.dfy` | `RegisterRequestResolver`, plus an encoder for registration datagrams |
| `ResponseFactory` | `response_factory.dfy` | `DNSResponseFactory` |
| `Register` | `dns_register.dfy` | `DNSRegister`, as a class with a `records` map |
| `Server` | `server.dfy` | the query and registration handlers of `DNSServer` |

The name rule works as follows:

- Optional scheme markers come first: `\x07http` renders as `http://` and `\x08https` as `https://`.
  Each is tested once, `http` first, so both together render as `http://https://`.
- Then come length-prefixed labels, joined with dots and ended by a zero byte.

The rule is stated as two functions, `Labels.StripScheme` and `Labels.WalkLabels`. The `while`
loops of both resolvers are methods proved equal to those functions.

Each parser has an encoder as its partner, and a round-trip lemma reads every encoded datagram
back to the fields it was written from. The encoder covers the names the rule can express
unambiguously, those allowed by `Labels.Encodable` (see "## Left out").

The server handlers are functions that read the registry object. A Python exception becomes an
`Err`, and each `except` clause becomes one case of a `match`.

## Model

| member | source | states |
|---|---|---|
| RecordTypes.FromCode | src/custom_types/dns_record_type.py:10-25 | construction succeeds exactly on the ten table codes, and then has that code; any other code gives `UnknownRecordTypeError` |
| RecordTypes.ToBytes | src/custom_types/dns_record_type.py:30-31 | the wire form is two bytes, the big-endian 16-bit form of the code |
| RecordTypes.FromCodeOfCode | src/custom_types/dns_record_type.py:11-25 | constructing from a type's own code gives that type back |
| RecordTypes.CodeInjective | src/custom_types/dns_record_type.py:6-11 | two record types are equal exactly when their codes are |
| RecordTypes.ToBytesRoundTrip | src/custom_types/dns_record_type.py:12-31 | the wire form read back big-endian is the code; equal wire forms mean equal types |
| RecordTypes.ToStringIsA | src/custom_types/dns_record_type.py:27-28 | the mnemonic is "A" exactly for the type with code 1 |
| RecordTypes.ToStringInjective | src/custom_types/dns_record_type.py:12-21 | the ten mnemonics are pairwise distinct |
| Utf8.DecodeAscii | src/dns_query_resolver.py:117 | UTF-8 decoding is the identity on ASCII text |
| Labels.StripScheme | src/dns_query_resolver.py:98-105 | the pre-step fails, with an index error outside the `try`, exactly on an empty input and on exactly `\x07http`. Otherwise: `\x07http` then `\x08https` gives "http://https://" and drops 11 bytes; `\x07http` alone gives "http://" and drops 5; `\x08https` alone gives "https://" and drops 6; anything else is kept whole with no text |
| Labels.WalkLabels | src/dns_query_resolver.py:107-118 | a successful walk stops at a zero length byte at or after its start |
| Labels.ReadLabels | src/register_request_resolver.py:96-107 | the label loop returns exactly what `WalkLabels` defines |
| Labels.DecodeEncodedName | src/dns_query_resolver.py:98-118 | the pre-step and label walk read an encoded scheme and label list back as its text, and stop at the encoding's terminator |
| Labels.ExampleLabels | tests/test_dns_query_resolver.py:49-55 | the labels www, example, com can be encoded, their encoding is 16 bytes, and they read back as "www.example.com" |
| IPv4Text.DecimalRoundTrip | src/register_request_resolver.py:127 | the decimal string of a number reads back as that number |
| IPv4Text.OctetRoundTrip | src/register_request_resolver.py:127 | the decimal form of every byte is accepted as an octet and reads back as that byte |
| IPv4Text.DottedDecimal | src/register_request_resolver.py:122-128 | the rendering is empty exactly when there are no bytes |
| IPv4Text.SplitDotted | src/register_request_resolver.py:122-128 | splitting a nonempty rendering at its dots gives one component per byte, each that byte in decimal |
| IPv4Text.InetAtonOfDotted | src/dns_response_factory.py:46 | `inet_aton` reads a four-byte dotted-decimal rendering back as the same four bytes |
| IPv4Text.DottedExample | tests/test_register_request_resolver.py:100-102 | `C0 A8 00 01` renders as "192.168.0.1" |
| IPv4Text.DottedExampleAllOnes | tests/test_register_request_resolver.py:108-110 | `FF FF FF FF` renders as "255.255.255.255" |
| IPv4Text.LoopbackDotted | tests/test_dns_response_factory.py:26-35 | `7F 00 00 01` renders as "127.0.0.1" |
| IPv4Text.PrivateDotted | tests/test_dns_response_factory.py:59-86 | `C0 A8 01 01` renders as "192.168.1.1" |
| IPv4Text.InetAtonExamples | tests/test_dns_response_factory.py:30-35 | "127.0.0.1" and "192.168.1.1" convert to their four octets |
| QueryResolver.ReadHeader | src/dns_query_resolver.py:40-46 | on a datagram of at least 12 bytes: the transaction id is bytes 0-1, the flags are bytes 2-3, and the four counts are big-endian bytes 4-11 |
| QueryResolver.QuestionSection | src/dns_query_resolver.py:56-59 | after the length check the question section is never empty |
| QueryResolver.FinishQuestion | src/dns_query_resolver.py:120-131 | type and class need four bytes after the terminator, and the type must be in the table; the class is kept raw; every failure is a format error |
| QueryResolver.ReadQuestion | src/dns_query_resolver.py:87-133 | index error exactly on an empty or exactly-`\x07http` question, otherwise only format errors; on success the section is kept verbatim and the class fits 16 bits |
| QueryResolver.ReadDnsQueryQuestion | src/dns_query_resolver.py:87-133 | the method with the label loop returns exactly `ReadQuestion` |
| QueryResolver.ReadQuery | src/dns_query_resolver.py:31-84 | see the notes after this table |
| QueryResolver.ValidateDnsQueryLength | src/dns_query_resolver.py:136-146 | when the check passes, the question section `data[12:len - 2a - 2d]` lies inside the datagram and is not empty; when it fails (with a non-negative end) that slice is empty |
| QueryResolver.ValidateExamples | tests/test_dns_query_resolver.py:92-127 | the length check accepts 17/1/1 and 13/0/0 and rejects 16/2/2 and 11/0/0 |
| QueryResolver.HttpLikeFirstLabel | src/dns_query_resolver.py:98-118 | a question for `httpbin.org` has its first label taken for the `http` marker, and is refused as malformed |
| QueryResolver.ReadEncodedHeader | src/dns_query_resolver.py:40-46 | an encoded header reads back as its six fields |
| QueryResolver.ReadEncodedQuestion | src/dns_query_resolver.py:87-133 | an encoded question reads back as its name text, type, class and its own bytes |
| QueryResolver.ReadEncodedQuery | src/dns_query_resolver.py:31-84 | see the notes after this table |
| RegisterResolver.ValidLengthLeavesRecordData | src/register_request_resolver.py:133-143 | `ValidateRegisterRequestLength` passes exactly when, after the 8 + L bytes of id, type, name length, name with terminator and data length, exactly the announced R bytes of record data remain |
| RegisterResolver.ReadDomainName | src/register_request_resolver.py:77-111 | index error exactly on an empty or exactly-`\x07http` name field, otherwise success or a format error |
| RegisterResolver.ReadRegisterRequestDomainName | src/register_request_resolver.py:77-111 | the method with the label loop returns exactly `ReadDomainName` |
| RegisterResolver.ReadRegisterRequestIpAddress | src/register_request_resolver.py:114-130 | the `for` loop yields each byte in decimal joined with "." (`DottedDecimal`) |
| RegisterResolver.NameLength | src/register_request_resolver.py:45 | the name length is byte 4 (0 when absent) |
| RegisterResolver.DataLength | src/register_request_resolver.py:47-49 | the data length is the big-endian value of the two bytes after the name, below 2^16 |
| RegisterResolver.ReadRequest | src/register_request_resolver.py:34-74 | see the notes after this table |
| RegisterResolver.ReadRegisterRequest | src/register_request_resolver.py:34-74 | the method calling both loops returns exactly `ReadRequest` |
| RegisterResolver.ReadEncodedDomainName | src/register_request_resolver.py:77-111 | an encoded name reads back as its text |
| RegisterResolver.EncodedRequestLengths | src/register_request_resolver.py:45-54 | the two length fields of an encoded registration read back as the name and data lengths and pass the length check |
| RegisterResolver.EncodedRequestFields | src/register_request_resolver.py:43-59 | the transaction id, record type, name field and record data of an encoded registration read back at their offsets |
| RegisterResolver.ReadEncodedRequest | src/register_request_resolver.py:34-74 | an encoded registration reads back as its transaction id, type, name text and dotted-decimal data; an empty name or empty data is a format error |
| ResponseFactory.GenerateResponse | src/dns_response_factory.py:20-48 | succeeds exactly when `inet_aton` accepts the address (otherwise a non-DNS exception); length is \|tid\| + 10 + \|question\| + 16 |
| ResponseFactory.GenerateErrorResponse | src/dns_response_factory.py:51-80 | succeeds exactly for codes 0..255 (`bytes([code])`); length is 10 + tid length (2 by default) + question length (6 by default) |
| ResponseFactory.SuccessFlagBits | src/dns_response_factory.py:31 | `81 80` is a response, opcode 0, RD and RA set, RCODE 0 |
| ResponseFactory.ErrorFlagBits | src/dns_response_factory.py:70 | `81 code` is a response with opcode 0 and RD set, and its RCODE is the code, for codes below 16 |
| ResponseFactory.AnswerFields | src/dns_response_factory.py:41-46 | the answer record is pointer `C0 0C`, the query's type, class 1, TTL 14, RDLENGTH 4 equal to the data length, then the address |
| ResponseFactory.NamePointerTargetsQuestion | src/dns_response_factory.py:41 | `C0 0C` is a compression pointer whose offset is the length of the header, where the question starts |
| ResponseFactory.ReadSuccessHeader | src/dns_response_factory.py:29-35 | the success header reads back with the tid, flags `81 80` and counts 1/1/0/0 |
| ResponseFactory.ReadErrorHeader | src/dns_response_factory.py:70-75 | the error header reads back with the tid, flags `81 code` and counts 1/0/0/0 |
| ResponseFactory.ResponseLayout | src/dns_response_factory.py:29-46 | a response reads back as a header with the query's tid and counts 1/1/0/0, then the question verbatim at offset 12, then the answer record |
| ResponseFactory.ErrorResponseLayout | src/dns_response_factory.py:61-78 | an error response reads back as a header with the tid (or `00 00`), flags `81 code` and counts 1/0/0/0, then the question (or the placeholder) |
| ResponseFactory.FixedParts | src/dns_response_factory.py:29-75 | the success header, the error header and the test answers byte by byte |
| ResponseFactory.ResponseLoopback | tests/test_dns_response_factory.py:26-35 | the expected bytes for the example query answered with the address text "127.0.0.1" |
| ResponseFactory.ResponseExampleCom | tests/test_dns_response_factory.py:59-86 | the expected bytes for the example.com query with tid `12 34` answered with the address text "192.168.1.1" |
| ResponseFactory.ErrorResponseWithTransactionId | tests/test_dns_response_factory.py:37-48 | code 2 with tid `AB CD` and the placeholder question |
| ResponseFactory.ErrorResponseDefaults | tests/test_dns_response_factory.py:50-57 | code 3 with both placeholders |
| ResponseFactory.ErrorResponseWithQuestion | tests/test_dns_response_factory.py:88-102 | code 3 with tid `12 34` and a question of its own |
| Register.DnsRegister.constructor | src/dns_register.py:26-33 | a new registry holds exactly the four `https://` entries |
| Register.DnsRegister.RegisterDomain | src/dns_register.py:35-42 | the name now maps to the address, overwriting; every other name keeps its entry |
| Register.DnsRegister.ResolveIp | src/dns_register.py:44-54 | `None` exactly when the name is not a key, otherwise the value stored for it |
| Register.ResolveReadsOnlyName | src/dns_register.py:51-52 | two queries with the same name resolve alike, whatever their type |
| Register.RegisterThenResolve | tests/test_dns_register.py:27-45 | after registering, the registered name resolves to its address and other names resolve as before |
| Register.InitialResolutions | tests/test_dns_register.py:47-55 | a new registry resolves exactly its four keys; "www.google.com" without the scheme misses |
| Server.GenerateDnsQueryResponse | src/dns_server.py:188-211 | see the notes after this table |
| Server.AnswerQuery | src/dns_server.py:196-211 | see the notes after this table |
| Server.HandleDnsQuery | src/dns_server.py:150-211 | the reply carries the success flags exactly when the query parses, is an A query, its name is registered and the address converts; such a reply is the factory's response to the query with that address |
| Server.QueryErrorIsNotSuccess | src/dns_server.py:159-186 | no reply built by the `except` clauses of the query handler carries the success flags |
| Server.QueryErrorResponse | src/dns_server.py:159-186 | see the notes after this table |
| Server.GenerateRegisterRequestResponse | src/dns_server.py:133-148 | see the notes after this table |
| Server.HandleRegisterRequest | src/dns_server.py:107-131 | see the notes after this table |
| Server.RegisterErrorResponse | src/dns_server.py:116-131 | format error 1, name error 3 and not implemented 4 get `data[:2]` and the placeholder question; anything else is code 2 with both placeholders |
| Server.ErrorReplyReads | src/dns_response_factory.py:61-78 | an error response with a 2-byte tid reads back with that tid, QR set, that RCODE, counts 1/0/0/0 and that question |
| Server.ErrorReplyIsNotSuccess | src/dns_server.py:159-186 | no error response with code 1..4 and a tid of at most two bytes (all the server ever passes) carries the success flags |
| Server.QueryAnswerLayout | src/dns_server.py:188-211 | an answered query repeats the datagram's tid and question section, and its answer carries the registered address |
| Server.QueryFormatError | src/dns_server.py:159-166 | a malformed query gets RCODE 1 with `data[:2]` and the placeholder question |
| Server.QueryMultipleQuestions | src/dns_server.py:175-182 | a query that passes the length check, has a parsable question with a non-empty name and a header question count above 1 gets RCODE 4 with `data[:2]` and the placeholder question |
| Server.QueryNotA | src/dns_server.py:196-201 | a non-A query gets RCODE 4 echoing its question section |
| Server.QueryMiss | src/dns_server.py:203-209 | an A query for an unregistered name gets RCODE 3 echoing its question section |
| Server.QueryServerFailure | src/dns_server.py:183-186 | an index error in the resolver or an unconvertible registered address gets RCODE 2 with tid `00 00` and the placeholder question |
| Server.RegistrationFormatError | src/dns_server.py:116-119 | an unparsable registration gets RCODE 1 with `data[:2]` |
| Server.RegistrationNotA | src/dns_server.py:141-145 | a non-A registration gets RCODE 4 with `data[:2]` |
| Server.RegisteredData | src/register_request_resolver.py:61-62 | for an acknowledged request, the record data renders as the request's IP text |
| Server.HandleRegisterRequestAndStore | src/dns_server.py:133-148 | corrected handler: same reply, and an acknowledged request is stored (overwriting), anything else leaves the registry unchanged |
| Server.StoredRegistrationAnswered | src/dns_server.py:188-211 | once a registration with 4 data bytes is stored, an A query for its name is answered and the reply ends with those bytes |
| Server.EncodedRegistration | src/dns_server.py:140-148 | an encoded A registration with a name and data is acknowledged with its tid, and its data is what it registers |
| Server.UnstoredRegistration | src/dns_server.py:133-148 | as written, a fresh server acknowledges a registration and then answers an A query for the new name with RCODE 3 |
| Server.StoredRegistration | src/dns_server.py:133-148 | with the corrected handler, the same exchange is answered with the registered address |
| Server.UnstoredRegistrationExample | tests/test_dns_register.py:57-70 | registering www.example.com at 1.1.1.1 is acknowledged with `12 34 01`, and the following query gets RCODE 3 |
| Server.StoredRegistrationExample | tests/test_dns_register.py:57-70 | with the corrected handler the same exchange ends in a success reply whose last four bytes are `01 01 01 01` |

Notes on the rows marked "see the notes after this table":

- **QueryResolver.ReadQuery.** When the length check fails, the result is a format error. The
  result is an index error exactly when the question section is `\x07http`. Otherwise every
  failure is a format error, or a not-implemented error carrying `data[:2]`. On success every
  field is read from its bytes, the question is the section verbatim, the name is not empty and
  at most one question is announced.
- **QueryResolver.ReadEncodedQuery.** An encoded query reads back as all its fields. An empty
  name is a format error. A question count above one is a not-implemented error carrying the
  tid.
- **RegisterResolver.ReadRequest.** Every failure is a format error, and a wrong length is
  always one. On success:
  - the tid is bytes 0-1 and the type's wire form is bytes 2-3;
  - the name decodes from `data[5:6+L]` and is not empty;
  - the IP text is the rendering of `data[8+L:]`.
- **Server.GenerateDnsQueryResponse.** The result is a success exactly when the query parses,
  is an A query, its name is registered and the address converts. The success value is
  `generate_response(query, ip)`.
- **Server.AnswerQuery.** A non-A query raises not-implemented with its tid and question. A miss
  raises a name error with its tid and question. An unconvertible address is a non-DNS error.
- **Server.QueryErrorResponse.** Format error is code 1, name error 3 and not implemented 4,
  each with `data[:2]` and the error's question or the placeholder. Anything else, an unknown
  record type included, is code 2 with both placeholders.
- **Server.GenerateRegisterRequestResponse.** The result is a success exactly when the request
  parses and is for A, and the success value is `data[:2] + 01`. Otherwise it is a format error
  or a not-implemented error carrying `data[:2]`.
- **Server.HandleRegisterRequest.** The reply is three bytes exactly when the request is
  acknowledged. It is always the acknowledgement, a format error or a not-implemented error,
  never a server failure.

## Findings

| source | as written | input that shows it | evidently intended | confidence | as-written member | corrected member |
|---|---|---|---|---|---|---|
| src/dns_server.py:133-148 | an A registration that parses is acknowledged, but `register_domain` is never called, so the registry is unchanged | a fresh server; register www.example.com at 1.1.1.1 (acknowledged with `12 34 01`), then an A query for www.example.com: RCODE 3, name error | an acknowledged registration is stored, so the following query is answered with 1.1.1.1 | not executed | Server.UnstoredRegistrationExample | Server.StoredRegistrationExample |

Both halves of the finding are also stated for every input, not just this example:

- **As written.** `Server.UnstoredRegistration` shows that any well-formed A registration for a
  name outside the initial four is acknowledged, and that a following A query for that name
  still gets RCODE 3.
- **Corrected.** `Server.HandleRegisterRequestAndStore` sends the same reply and also stores the
  registration. `Server.StoredRegistrationAnswered` and `Server.StoredRegistration` show that
  the query is then answered with the registered address.

The rest of the model keeps the handler as written, `Server.HandleRegisterRequest`. The
corrected handler is used only where the intended behaviour is stated.

## Left out

- Sockets, the `select` loop, `recvfrom`/`sendto` and socket creation (src/dns_server.py:61-105),
  and the process start-up in src/main.py: I/O, outside the request handling.
- `print` logging and the exceptions' message strings: they do not affect any reply.
- IPv4Text.InetAton: accepts only the canonical dotted quad. The registration resolver writes one
  component per record-data byte, so only four-byte registrations give that form. `socket.inet_aton`
  also accepts the short forms that 1 to 3 data bytes give ("5" as 0.0.0.5, "1.2.3" as 1.2.0.3)
  and hexadecimal and octal forms. The model rejects all of these, so for such registry values it
  answers with a server failure (RCODE 2) where the system would answer.
- Utf8.Decode: a concrete strict decoder for well-formed UTF-8. Python's decoder is a foreign
  call; the proofs rely only on its behaviour on ASCII labels (`Utf8.DecodeAscii`).
- The encoders write ASCII labels only (`Labels.Encodable`). The round-trip lemmas say nothing
  about names with non-ASCII labels, which the parsers accept.
- Labels.Encodable: it also excludes names whose first label is seven bytes starting with "http"
  or eight starting with "https". The scheme pre-step (src/dns_query_resolver.py:98-105,
  src/register_request_resolver.py:88-94) takes such a label for a scheme marker, so such names do
  not round-trip. For example `\x07httpbin\x03org\x00` loses "http", its next byte "b" is read
  as a label length, and the question is refused as malformed
  (`QueryResolver.HttpLikeFirstLabel`).
- The registration resolver's non-bytes input test (a `str` passed as the datagram): it depends
  on Python's dynamic typing, and the model's datagrams are always byte sequences.
- The `dns_response_factory` field of `DNSRegister`: nothing reads it.
- The handler tests' mocks (tests/test_dns_server.py): they replace the resolvers and the
  factory. The model relates the handlers to the real resolvers and factory instead.
