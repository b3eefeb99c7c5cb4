/** The server's domain table: domain name to the public port it forwards to
    and its mode ("auto", "http", ...). Persisting the table to disk is a
    side effect outside the model. */
module ServerDomains {
  import opened Wrappers

  datatype DomainEntry = DomainEntry(publicPort: int, mode: string)

  type Table = map<string, DomainEntry>

  /** The mode stored when none is given. */
  const DefaultMode: string := "auto"

  /** Map `domain` to `port`, replacing any earlier entry; an empty mode is
      stored as "auto". */
  function Add(t: Table, domain: string, port: int, mode: string): (r: Table)
    ensures Get(r, domain).Some? && Get(r, domain).value.publicPort == port
    ensures mode != "" ==> Get(r, domain).value.mode == mode
    ensures mode == "" ==> Get(r, domain).value.mode == DefaultMode
    ensures Get(r, domain).value.mode != ""
    ensures forall d :: d != domain ==> Get(r, d) == Get(t, d)
  {
    t[domain := DomainEntry(port, if mode == "" then DefaultMode else mode)]
  }

  /** Drop `domain` from the table, whether or not it is there. */
  function Remove(t: Table, domain: string): (r: Table)
    ensures !Exists(r, domain)
    ensures forall d :: d != domain ==> Get(r, d) == Get(t, d)
  {
    t - {domain}
  }

  /** The entry for `domain`. */
  function Get(t: Table, domain: string): (r: Option<DomainEntry>)
    ensures r.Some? <==> domain in t
    ensures r.Some? ==> r.value == t[domain]
  {
    if domain in t then Some(t[domain]) else None
  }

  /** Whether `domain` has an entry. */
  function Exists(t: Table, domain: string): (r: bool)
    ensures r <==> Get(t, domain).Some?
  {
    domain in t
  }

  /** The public port of `domain` and whether it is mapped: Go's zero value,
      0, when it is not. */
  function GetPort(t: Table, domain: string): (r: (int, bool))
    ensures r.1 <==> Exists(t, domain)
    ensures r.1 ==> r.0 == Get(t, domain).value.publicPort
    ensures !r.1 ==> r.0 == 0
  {
    if domain in t then (t[domain].publicPort, true) else (0, false)
  }

  /** Removing twice is removing once. */
  lemma RemoveIdempotent(t: Table, domain: string)
    ensures Remove(Remove(t, domain), domain) == Remove(t, domain)
  {
  }

  /** Adding and then looking up gives back the port with its mode defaulted. */
  lemma AddThenGetPort(t: Table, domain: string, port: int, mode: string)
    ensures GetPort(Add(t, domain, port, mode), domain) == (port, true)
    ensures GetPort(Remove(Add(t, domain, port, mode), domain), domain) == (0, false)
  {
  }
}
