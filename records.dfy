/**
 * Address records handed back to the HTTP connection layer, and the
 * conversion of one resolved IP address into such a record
 * (`_to_resolve_result` in `_impl.py`).
 *
 * Socket constants take their Linux values.
 */
module Records {

  /** Address families, as numbered by the Linux socket API. */
  const AF_UNSPEC: int := 0
  const AF_INET: int := 2
  const AF_INET6: int := 10

  /** `getaddrinfo` flag bits, as numbered by glibc. */
  const AI_NUMERICHOST: bv32 := 0x4
  const AI_NUMERICSERV: bv32 := 0x400

  /** The flags every mDNS-derived record carries: the host and service are already numeric. */
  const NUMERIC_SOCKET_FLAGS: bv32 := AI_NUMERICHOST | AI_NUMERICSERV

  /** IP version number to address family. */
  const IP_VERSION_TO_FAMILY: map<int, int> := map[4 := AF_INET, 6 := AF_INET6]

  /**
   * A resolved IP address. Its textual (compressed) form is taken as given:
   * the model does not produce or parse IP address text.
   */
  datatype IpAddress = IPv4Address(compressed: string) | IPv6Address(compressed: string)

  function Version(a: IpAddress): (v: int)
    ensures v == 4 || v == 6
  {
    if a.IPv4Address? then 4 else 6
  }

  /** One entry of a resolver's answer, as the connection layer consumes it. */
  datatype ResolveResult = ResolveResult(
    hostname: string,
    host: string,
    port: int,
    family: int,
    proto: int,
    flags: bv32)

  /** The key on which merged answers are de-duplicated. */
  type Key = (string, int, string)

  function KeyOf(r: ResolveResult): Key
  {
    (r.hostname, r.port, r.host)
  }

  /** Two records share a key exactly when hostname, port and host agree; family, proto and flags take no part. */
  lemma SameKey(a: ResolveResult, b: ResolveResult)
    ensures KeyOf(a) == KeyOf(b) <==> a.hostname == b.hostname && a.port == b.port && a.host == b.host
  {
  }

  /** Build the record for one address learnt for `hostname` on `port`. */
  function ToResolveResult(hostname: string, port: int, address: IpAddress): (r: ResolveResult)
    ensures r.hostname == hostname && r.port == port && r.host == address.compressed
    ensures r.family == AF_INET <==> address.IPv4Address?
    ensures r.family == AF_INET6 <==> address.IPv6Address?
    ensures r.proto == 0
    ensures r.flags == NUMERIC_SOCKET_FLAGS
  {
    ResolveResult(
      hostname := hostname,
      host := address.compressed,
      port := port,
      family := IP_VERSION_TO_FAMILY[Version(address)],
      proto := 0,
      flags := NUMERIC_SOCKET_FLAGS)
  }

  /** The record's family and host text identify the address it was built from. */
  lemma AddressRecoverable(hostname: string, port: int, a: IpAddress, b: IpAddress)
    requires ToResolveResult(hostname, port, a) == ToResolveResult(hostname, port, b)
    ensures a == b
  {
  }
}
