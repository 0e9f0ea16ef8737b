/**
 * `DNSRecordType`: the closed table of supported DNS TYPE codes (section 3.2.2
 * of RFC 1035 for A, NS, CNAME, SOA, PTR, MX and TXT; section 2.1 of RFC 3596
 * for AAAA; RFC 2782 for SRV; section 3.2.3 of RFC 1035 for the QTYPE `*`,
 * here ANY). Each code has a mnemonic and a fixed 2-byte wire form; building a
 * record type from any other code fails with `UnknownRecordTypeError`.
 *
 * The Python object keeps its table outside the dataclass fields, so two
 * record types are equal exactly when their codes are; the datatype below has
 * one constructor per code, which makes that the datatype's own equality
 * (see `CodeInjective`).
 */
module RecordTypes {
  import opened Wire
  import opened Errors

  datatype RecordType = A | NS | CNAME | SOA | PTR | MX | TXT | AAAA | SRV | ANY

  /** The numeric TYPE code (the dataclass field `value`). */
  function Code(t: RecordType): (v: nat)
    ensures 1 <= v <= 255
  {
    match t
    case A => 1
    case NS => 2
    case CNAME => 5
    case SOA => 6
    case PTR => 12
    case MX => 15
    case TXT => 16
    case AAAA => 28
    case SRV => 33
    case ANY => 255
  }

  /** The codes the table holds. */
  predicate IsSupportedCode(v: int)
  {
    v == 1 || v == 2 || v == 5 || v == 6 || v == 12 || v == 15 || v == 16 || v == 28 || v == 33 || v == 255
  }

  /** `DNSRecordType(value)`: succeeds exactly on the table's codes. */
  function FromCode(v: int): (r: Result<RecordType>)
    ensures r.Ok? <==> IsSupportedCode(v)
    ensures r.Ok? ==> Code(r.value) == v
    ensures r.Err? ==> r.error == UnknownRecordTypeError(None, None)
  {
    if v == 1 then Ok(A)
    else if v == 2 then Ok(NS)
    else if v == 5 then Ok(CNAME)
    else if v == 6 then Ok(SOA)
    else if v == 12 then Ok(PTR)
    else if v == 15 then Ok(MX)
    else if v == 16 then Ok(TXT)
    else if v == 28 then Ok(AAAA)
    else if v == 33 then Ok(SRV)
    else if v == 255 then Ok(ANY)
    else Err(UnknownRecordTypeError(None, None))
  }

  /** `to_string`: the mnemonic. */
  function ToString(t: RecordType): string
  {
    match t
    case A => "A"
    case NS => "NS"
    case CNAME => "CNAME"
    case SOA => "SOA"
    case PTR => "PTR"
    case MX => "MX"
    case TXT => "TXT"
    case AAAA => "AAAA"
    case SRV => "SRV"
    case ANY => "ANY"
  }

  /** `to_bytes`: the 2-byte wire form, written out as the table has it. */
  function ToBytes(t: RecordType): (r: Bytes)
    ensures |r| == 2
    ensures r == U16(Code(t))
  {
    match t
    case A => [0x00, 0x01]
    case NS => [0x00, 0x02]
    case CNAME => [0x00, 0x05]
    case SOA => [0x00, 0x06]
    case PTR => [0x00, 0x0c]
    case MX => [0x00, 0x0f]
    case TXT => [0x00, 0x10]
    case AAAA => [0x00, 0x1c]
    case SRV => [0x00, 0x21]
    case ANY => [0x00, 0xff]
  }

  /** Building from a type's own code gives that type back. */
  lemma FromCodeOfCode(t: RecordType)
    ensures FromCode(Code(t)) == Ok(t)
  {
  }

  /** Equality of record types is equality of their codes. */
  lemma CodeInjective(s: RecordType, t: RecordType)
    ensures Code(s) == Code(t) <==> s == t
  {
  }

  /** Reading the wire form back as a big-endian number gives the code, so
      the wire form determines the record type. */
  lemma {:induction false} ToBytesRoundTrip(s: RecordType, t: RecordType)
    ensures FromBytes(ToBytes(t)) == Code(t)
    ensures ToBytes(s) == ToBytes(t) ==> s == t
  {
    U16RoundTrip(Code(s));
    U16RoundTrip(Code(t));
  }

  /** The server's "is this an A query" test reads the mnemonic; it holds for
      the A type and for no other. */
  lemma ToStringIsA(t: RecordType)
    ensures ToString(t) == "A" <==> t == A
    ensures ToString(t) == "A" <==> Code(t) == 1
  {
  }

  /** The ten mnemonics are pairwise distinct. */
  lemma ToStringInjective(s: RecordType, t: RecordType)
    ensures ToString(s) == ToString(t) <==> s == t
  {
  }
}
