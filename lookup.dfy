/**
 * The single-path mDNS lookup: address extraction from a discovery query,
 * the timeout gate in front of the multicast request, and
 * `AsyncMDNSResolver.resolve`.
 *
 * The discovery library is not modelled. What it stores in a query object
 * (after a cache load, and after a request) is an input, and so is the
 * parent DNS resolver's answer for the same call.
 */
module Lookup {
  import opened Wrappers
  import opened Records
  import opened Routing

  /** The errors `resolve` raises. */
  datatype Error =
    | OSError(strerror: string)   // a failed lookup, carrying its message
    | KeyError(family: int)       // a family the query-class table does not list
    | AttributeError(name: string) // use of the discovery handle after close()

  /** The message of the error raised when a query holds no address. */
  const MDNS_LOOKUP_FAILED: string := "MDNS lookup failed"

  /** The discovery library's IP-version selector. */
  datatype IPVersion = V4Only | V6Only | All

  /** Address family to the IP versions a lookup returns. */
  const FAMILY_TO_IP_VERSION: map<int, IPVersion> :=
    map[AF_INET := V4Only, AF_INET6 := V6Only, AF_UNSPEC := All]

  /**
   * What the discovery library has stored in a query object: the port it
   * reports and the textual IPv4 and IPv6 addresses it learnt.
   */
  datatype Answers = Answers(port: int, ipv4: seq<string>, ipv6: seq<string>)

  function AsIPv4(texts: seq<string>): (r: seq<IpAddress>)
    ensures |r| == |texts|
    ensures forall i :: 0 <= i < |r| ==> r[i] == IPv4Address(texts[i])
  {
    seq(|texts|, i requires 0 <= i < |texts| => IPv4Address(texts[i]))
  }

  function AsIPv6(texts: seq<string>): (r: seq<IpAddress>)
    ensures |r| == |texts|
    ensures forall i :: 0 <= i < |r| ==> r[i] == IPv6Address(texts[i])
  {
    seq(|texts|, i requires 0 <= i < |texts| => IPv6Address(texts[i]))
  }

  /** The addresses a query reports for one IP-version selector; IPv4 entries come first. */
  function AddressesByVersion(a: Answers, version: IPVersion): seq<IpAddress>
  {
    match version
    case V4Only => AsIPv4(a.ipv4)
    case V6Only => AsIPv6(a.ipv6)
    case All => AsIPv4(a.ipv4) + AsIPv6(a.ipv6)
  }

  /**
   * One record per address the query reports for `family`, in order, all
   * carrying the query's server name and the reported port; no address at
   * all is the "MDNS lookup failed" error (its message is the error value).
   * Only called once `MakeResolver` has accepted `family`, which the
   * IP-version table lists too.
   */
  function AddressesFromInfoOrRaise(q: Query, a: Answers, family: int): (r: Result<seq<ResolveResult>, string>)
    requires family in FAMILY_TO_IP_VERSION
    ensures var addresses := AddressesByVersion(a, FAMILY_TO_IP_VERSION[family]);
      && (r.Err? <==> |addresses| == 0)
      && (r.Err? ==> r.error == MDNS_LOOKUP_FAILED)
      && (r.Ok? ==> |r.value| == |addresses|)
      && (r.Ok? ==>
            forall i :: 0 <= i < |r.value| ==>
              && r.value[i].hostname == q.server
              && r.value[i].port == a.port
              && r.value[i].host == addresses[i].compressed
              && r.value[i].family == (if addresses[i].IPv4Address? then AF_INET else AF_INET6)
              && r.value[i].proto == 0
              && r.value[i].flags == NUMERIC_SOCKET_FLAGS)
  {
    var ipVersion := FAMILY_TO_IP_VERSION[family];
    var addresses := AddressesByVersion(a, ipVersion);
    if |addresses| > 0 then
      Ok(seq(|addresses|, i requires 0 <= i < |addresses| => ToResolveResult(q.server, a.port, addresses[i])))
    else
      Err(MDNS_LOOKUP_FAILED)
  }

  /** For an unspecified family the IPv4 records precede the IPv6 records. */
  lemma {:induction false} UnspecifiedFamilyOrder(q: Query, a: Answers)
    requires |a.ipv4| + |a.ipv6| > 0
    ensures var r := AddressesFromInfoOrRaise(q, a, AF_UNSPEC);
      && r.Ok? && |r.value| == |a.ipv4| + |a.ipv6|
      && (forall i :: 0 <= i < |a.ipv4| ==> r.value[i].family == AF_INET && r.value[i].host == a.ipv4[i])
      && (forall j :: 0 <= j < |a.ipv6| ==>
            r.value[|a.ipv4| + j].family == AF_INET6 && r.value[|a.ipv4| + j].host == a.ipv6[j])
  {
    var addresses := AddressesByVersion(a, All);
    assert addresses == AsIPv4(a.ipv4) + AsIPv6(a.ipv6);
    forall j | 0 <= j < |a.ipv6|
      ensures addresses[|a.ipv4| + j] == IPv6Address(a.ipv6[j])
    {
      assert addresses[|a.ipv4| + j] == AsIPv6(a.ipv6)[j];
    }
  }

  /** Python truthiness of the configured timeout: absent or zero disables requests. */
  predicate IsFalsy(timeout: Option<real>)
    ensures IsFalsy(timeout) <==> !(timeout.Some? && timeout.value != 0.0)
  {
    timeout == None || timeout == Some(0.0)
  }

  /** The timeout in milliseconds handed to the multicast request, or `None` when no request is sent. */
  function RequestTimeoutMillis(timeout: Option<real>): (r: Option<real>)
    ensures r.None? <==> IsFalsy(timeout)
    ensures r.Some? ==> r.value == timeout.value * 1000.0
  {
    if IsFalsy(timeout) then None else Some(timeout.value * 1000.0)
  }

  /**
   * `_resolve_mdns_by_request`: with a falsy timeout nothing is sent and the
   * answer is false; otherwise the request's own answer (`answered`) is returned.
   */
  function ResolveMdnsByRequest(timeout: Option<real>, answered: bool): (r: bool)
    ensures IsFalsy(timeout) ==> !r
    ensures !IsFalsy(timeout) ==> r == answered
  {
    if RequestTimeoutMillis(timeout).None? then false else answered
  }

  /**
   * The discovery library's side of one lookup: whether the cache already
   * answered the query, the query's contents after the cache load, the
   * request's answer, and the query's contents after the request.
   */
  datatype Discovery = Discovery(
    cacheHit: bool,
    fromCache: Answers,
    requestAnswered: bool,
    fromRequest: Answers)

  /** The outcome of a lookup and the multicast request it issued, if any (its timeout in ms). */
  datatype Resolution<E> = Resolution(outcome: Result<seq<ResolveResult>, E>, requestMillis: Option<real>)

  /**
   * `_resolve_mdns`: send the request unless the timeout is falsy, then
   * extract from whatever the query now holds. The request's own answer is
   * discarded, as the source discards it: which answers are read depends only
   * on whether a request was sent.
   */
  function ResolveMdns(timeout: Option<real>, q: Query, family: int, d: Discovery): (res: Resolution<string>)
    requires family in FAMILY_TO_IP_VERSION
    ensures res.requestMillis == RequestTimeoutMillis(timeout)
    ensures res.outcome == AddressesFromInfoOrRaise(q, if IsFalsy(timeout) then d.fromCache else d.fromRequest, family)
  {
    var _ := ResolveMdnsByRequest(timeout, d.requestAnswered);
    var millis := RequestTimeoutMillis(timeout);
    var answers := if millis.Some? then d.fromRequest else d.fromCache;
    Resolution(AddressesFromInfoOrRaise(q, answers, family), millis)
  }

  /**
   * A lookup failure carried as its message, raised as the `OSError` it is;
   * the parent resolver's failures are raised this way unchanged.
   */
  function Raised(r: Result<seq<ResolveResult>, string>): Result<seq<ResolveResult>, Error>
  {
    match r
    case Ok(rs) => Ok(rs)
    case Err(msg) => Err(OSError(msg))
  }

  /**
   * `AsyncMDNSResolver.resolve`. `hasHandle` is false once the resolver
   * was closed; `parent` is the parent resolver's answer for the same call.
   * The requested `port` reaches only the parent resolver.
   */
  function Resolve(
    timeout: Option<real>, hasHandle: bool,
    host: string, port: int, family: int,
    d: Discovery, parent: Result<seq<ResolveResult>, string>): (r: Resolution<Error>)
    ensures !IsMdnsName(host) ==> r == Resolution(Raised(parent), None)
    ensures r.requestMillis.Some? <==>
      IsMdnsName(host) && family in FAMILY_TO_IP_VERSION && hasHandle && !d.cacheHit && !IsFalsy(timeout)
    ensures IsMdnsName(host) && r.outcome.Ok? ==>
      forall i :: 0 <= i < |r.outcome.value| ==> r.outcome.value[i].hostname == Normalise(host)
  {
    if !IsMdnsName(host) then
      Resolution(Raised(parent), None)
    else
      match MakeResolver(host, family)
      case None => Resolution(Err(KeyError(family)), None)
      case Some(q) =>
        if !hasHandle then
          Resolution(Err(AttributeError("zeroconf")), None)
        else if d.cacheHit then
          Resolution(Raised(AddressesFromInfoOrRaise(q, d.fromCache, family)), None)
        else
          var m := ResolveMdns(timeout, q, family, d);
          Resolution(Raised(m.outcome), m.requestMillis)
  }

  /** Names without the suffix get the parent's answer unchanged, whatever the discovery state. */
  lemma NonMdnsNamesDelegate(
    timeout: Option<real>, hasHandle: bool, host: string, port: int, family: int,
    d: Discovery, parent: Result<seq<ResolveResult>, string>)
    requires !IsMdnsName(host)
    ensures Resolve(timeout, hasHandle, host, port, family, d, parent) == Resolution(Raised(parent), None)
    ensures parent.Ok? ==> Resolve(timeout, hasHandle, host, port, family, d, parent).outcome == Ok(parent.value)
  {
  }

  /** An mDNS name never consults the parent resolver. */
  lemma MdnsNamesIgnoreParent(
    timeout: Option<real>, hasHandle: bool, host: string, port: int, family: int,
    d: Discovery, p1: Result<seq<ResolveResult>, string>, p2: Result<seq<ResolveResult>, string>)
    requires IsMdnsName(host)
    ensures Resolve(timeout, hasHandle, host, port, family, d, p1) == Resolve(timeout, hasHandle, host, port, family, d, p2)
  {
  }

  /** A cache hit sends no request and its answer does not depend on one. */
  lemma CacheHitSendsNoRequest(
    timeout: Option<real>, host: string, port: int, family: int,
    d: Discovery, parent: Result<seq<ResolveResult>, string>, later: Answers)
    requires IsMdnsName(host) && family in FAMILY_TO_IP_VERSION && d.cacheHit
    ensures Resolve(timeout, true, host, port, family, d, parent).requestMillis == None
    ensures Resolve(timeout, true, host, port, family, d, parent)
         == Resolve(None, true, host, port, family, d.(fromRequest := later), parent)
  {
  }

  /**
   * With a falsy timeout and a cache miss no request is sent; if the cache
   * load left no address the lookup fails with "MDNS lookup failed".
   */
  lemma FalsyTimeoutSendsNoRequest(
    timeout: Option<real>, host: string, port: int, family: int,
    d: Discovery, parent: Result<seq<ResolveResult>, string>)
    requires IsMdnsName(host) && family in FAMILY_TO_IP_VERSION && IsFalsy(timeout)
    requires !d.cacheHit && d.fromCache.ipv4 == [] && d.fromCache.ipv6 == []
    ensures Resolve(timeout, true, host, port, family, d, parent)
         == Resolution(Err(OSError(MDNS_LOOKUP_FAILED)), None)
  {
    var q := MakeResolver(host, family).value;
    assert AddressesByVersion(d.fromCache, FAMILY_TO_IP_VERSION[family]) == [];
  }

  /** After close() an mDNS name fails on the dropped handle, before any cache load or request. */
  lemma ClosedResolverFailsMdnsNames(
    timeout: Option<real>, host: string, port: int, family: int,
    d: Discovery, parent: Result<seq<ResolveResult>, string>)
    requires IsMdnsName(host) && family in FAMILY_TO_IP_VERSION
    ensures Resolve(timeout, false, host, port, family, d, parent)
         == Resolution(Err(AttributeError("zeroconf")), None)
  {
  }

  /** An unknown family on an mDNS name is the `KeyError` of the query-class table. */
  lemma UnknownFamilyFails(
    timeout: Option<real>, hasHandle: bool, host: string, port: int, family: int,
    d: Discovery, parent: Result<seq<ResolveResult>, string>)
    requires IsMdnsName(host) && family !in FAMILY_TO_IP_VERSION
    ensures Resolve(timeout, hasHandle, host, port, family, d, parent) == Resolution(Err(KeyError(family)), None)
  {
  }

  /** Every record of a successful mDNS lookup carries the normalised name. */
  lemma RecordsCarryNormalisedName(
    timeout: Option<real>, hasHandle: bool, host: string, port: int, family: int,
    d: Discovery, parent: Result<seq<ResolveResult>, string>)
    requires IsMdnsName(host)
    ensures var o := Resolve(timeout, hasHandle, host, port, family, d, parent).outcome;
      o.Ok? ==> forall i :: 0 <= i < |o.value| ==> o.value[i].hostname == Normalise(host)
  {
  }

  /** `x.local` and `x.local.` resolve identically. */
  lemma {:induction false} TrailingDotIrrelevant(
    timeout: Option<real>, hasHandle: bool, host: string, port: int, family: int,
    d: Discovery, parent: Result<seq<ResolveResult>, string>)
    requires EndsWith(host, ".local")
    ensures Resolve(timeout, hasHandle, host, port, family, d, parent)
         == Resolve(timeout, hasHandle, host + ".", port, family, d, parent)
    ensures Normalise(host) == host + "."
  {
    SuffixedNamesAreMdns(host[..|host| - 6]);
    assert host[..|host| - 6] + ".local" == host;
    assert IsMdnsName(host) && IsMdnsName(host + ".");
    assert host[|host| - 1] == host[|host| - 6..][5] == 'l';
    NormaliseIgnoresTrailingDot(host);
    assert MakeResolver(host, family) == MakeResolver(host + ".", family);
  }

  /**
   * A lookup of `localhost.local` with an unspecified family whose request
   * learns 127.0.0.1 and ::1 yields the two records in that order.
   */
  lemma UnspecifiedLookupScenario(d: Discovery, port: int, parent: Result<seq<ResolveResult>, string>)
    requires !d.cacheHit && d.fromRequest.ipv4 == ["127.0.0.1"] && d.fromRequest.ipv6 == ["::1"]
    ensures var o := Resolve(Some(5.0), true, "localhost.local", port, AF_UNSPEC, d, parent).outcome;
      && o.Ok? && |o.value| == 2
      && o.value[0].hostname == "localhost.local." && o.value[0].host == "127.0.0.1"
      && o.value[1].hostname == "localhost.local." && o.value[1].host == "::1"
  {
    SuffixedNamesAreMdns("localhost");
    UnspecifiedFamilyOrder(Query(AddressResolver, "localhost.local."), d.fromRequest);
  }
}
