/**
 * `DNSRegister`: the server's table from domain names to IPv4 addresses in
 * text form. It starts with four entries, `RegisterDomain` adds or
 * overwrites one, and `ResolveIp` looks a query's name up by exact string
 * match.
 */
module Register {
  import opened Errors
  import opened CustomTypes

  /** The entries every new registry holds. The keys carry their URL scheme,
      and names are matched as whole strings. */
  const InitialRecords: map<string, string> := map[
    "https://www.google.com" := "172.217.1.110",
    "https://www.yahoo.com" := "74.6.231.21",
    "https://www.nhl.com" := "104.18.17.236",
    "https://www.python.org" := "151.101.193.168"]

  class DnsRegister {
    var records: map<string, string>

    constructor ()
      ensures records == InitialRecords
    {
      records := InitialRecords;
    }

    /** `register_domain`: the name now maps to the address, whatever it
        mapped to before, and every other name keeps its entry. */
    method RegisterDomain(domainName: string, ipAddress: string)
      modifies this
      ensures records == old(records)[domainName := ipAddress]
      ensures domainName in records && records[domainName] == ipAddress
      ensures forall n :: n != domainName ==> (n in records <==> n in old(records))
      ensures forall n :: n != domainName && n in records ==> records[n] == old(records)[n]
    {
      records := records[domainName := ipAddress];
    }

    /** `resolve_ip`: the address the query's name maps to, if the name is a
        key; only the name of the query is read. */
    function ResolveIp(query: DnsQuery): (r: Option<string>)
      reads this
      ensures r.None? <==> query.domainName !in records
      ensures r.Some? ==> query.domainName in records && r.value == records[query.domainName]
    {
      if query.domainName in records then Some(records[query.domainName]) else None
    }
  }

  /** A registry answers two queries with the same name alike, whatever
      their type and other fields. */
  lemma ResolveReadsOnlyName(reg: DnsRegister, q1: DnsQuery, q2: DnsQuery)
    requires q1.domainName == q2.domainName
    ensures reg.ResolveIp(q1) == reg.ResolveIp(q2)
  {
  }

  /** Registering then resolving a query for the registered name gives the
      registered address; a query for any other name resolves as before. */
  method RegisterThenResolve(reg: DnsRegister, domainName: string, ipAddress: string, query: DnsQuery)
      returns (resolved: Option<string>)
    modifies reg
    ensures query.domainName == domainName ==> resolved == Some(ipAddress)
    ensures query.domainName != domainName ==> resolved == old(reg.ResolveIp(query))
  {
    reg.RegisterDomain(domainName, ipAddress);
    resolved := reg.ResolveIp(query);
  }

  /** A new registry resolves the four keys it starts with and nothing else;
      in particular a name without its `https://` prefix misses. */
  lemma InitialResolutions(reg: DnsRegister, query: DnsQuery)
    requires reg.records == InitialRecords
    ensures query.domainName == "https://www.google.com" ==> reg.ResolveIp(query) == Some("172.217.1.110")
    ensures query.domainName == "www.google.com" ==> reg.ResolveIp(query) == None
    ensures query.domainName == "www.example.com" ==> reg.ResolveIp(query) == None
    ensures reg.ResolveIp(query).Some? <==>
              (query.domainName in {"https://www.google.com", "https://www.yahoo.com",
                                    "https://www.nhl.com", "https://www.python.org"})
  {
  }
}
