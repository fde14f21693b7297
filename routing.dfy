/**
 * Which names take the mDNS path, and how a per-family discovery query is
 * built for them (`_make_resolver` in `_impl.py`).
 */
module Routing {
  import opened Wrappers
  import opened Records

  /** Python's `str.endswith`: case-sensitive, character by character. */
  predicate EndsWith(s: string, suffix: string)
  {
    |suffix| <= |s| && s[|s| - |suffix|..] == suffix
  }

  /** The suffix test compares the last characters one by one. */
  lemma EndsWithPointwise(s: string, suffix: string)
    ensures EndsWith(s, suffix) <==>
      |suffix| <= |s| && forall i :: 0 <= i < |suffix| ==> s[|s| - |suffix| + i] == suffix[i]
  {
  }

  /**
   * True when `host` is resolved over mDNS. Only a literal lower-case
   * `.local` or `.local.` suffix qualifies; every other name is delegated.
   */
  predicate IsMdnsName(host: string)
  {
    EndsWith(host, ".local") || EndsWith(host, ".local.")
  }

  /** A name takes the mDNS path exactly when, after dropping at most one trailing dot, it ends in `.local`. */
  lemma MdnsUpToTrailingDot(host: string)
    ensures IsMdnsName(host) <==>
      EndsWith(host, ".local") || (|host| > 0 && host[|host| - 1] == '.' && EndsWith(host[..|host| - 1], ".local"))
  {
  }

  /** Every name built by appending the suffix is routed to mDNS. */
  lemma SuffixedNamesAreMdns(prefix: string)
    ensures IsMdnsName(prefix + ".local")
    ensures IsMdnsName(prefix + ".local.")
  {
    assert (prefix + ".local")[|prefix|..] == ".local";
    assert (prefix + ".local.")[|prefix|..] == ".local.";
  }

  /** Conversely, an mDNS name is some prefix followed by one of the two suffixes. */
  lemma MdnsNamesAreSuffixed(host: string)
    requires IsMdnsName(host)
    ensures host == host[..|host| - 6] + ".local" || host == host[..|host| - 7] + ".local."
  {
    if EndsWith(host, ".local") {
      assert host == host[..|host| - 6] + host[|host| - 6..];
    } else {
      assert host == host[..|host| - 7] + host[|host| - 7..];
    }
  }

  /** The suffix check does not fold case. */
  lemma UpperCaseSuffixIsNotMdns()
    ensures !IsMdnsName("printer.LOCAL")
    ensures !IsMdnsName("printer.Local.")
  {
    assert "printer.LOCAL"[7..] != ".local";
    assert "printer.LOCAL"[6..] != ".local.";
    assert "printer.Local."[8..] != ".local";
    assert "printer.Local."[7..] != ".local.";
  }

  /** Append the trailing dot that fully-qualified multicast names need, unless present. */
  function Normalise(host: string): (r: string)
    requires |host| > 0
    ensures r == host || r == host + "."
    ensures r[|r| - 1] == '.'
    ensures host[|host| - 1] == '.' ==> r == host
  {
    if host[|host| - 1] != '.' then host + "." else host
  }

  lemma NormaliseIdempotent(host: string)
    requires |host| > 0
    ensures Normalise(Normalise(host)) == Normalise(host)
  {
  }

  /** A name with and without its trailing dot normalise to the same query name. */
  lemma NormaliseIgnoresTrailingDot(host: string)
    requires |host| > 0 && host[|host| - 1] != '.'
    ensures Normalise(host) == Normalise(host + ".") == host + "."
  {
  }

  /** Normalising keeps a name on the mDNS path, and every normalised mDNS name ends in `.local.`. */
  lemma {:induction false} NormalisePreservesRouting(host: string)
    requires |host| > 0
    ensures IsMdnsName(Normalise(host)) <==> IsMdnsName(host)
    ensures IsMdnsName(host) ==> EndsWith(Normalise(host), ".local.")
  {
    var n := Normalise(host);
    if host[|host| - 1] != '.' {
      assert n == host + ".";
      if |host| >= 6 {
        assert n[|n| - 7..] == host[|host| - 6..] + ".";
        assert host[|host| - 6..] == n[|n| - 7..][..6];
      }
      assert !EndsWith(host, ".local.");
      assert !EndsWith(n, ".local");
      assert EndsWith(n, ".local.") <==> EndsWith(host, ".local");
    } else {
      assert n == host;
      assert !EndsWith(host, ".local");
    }
  }

  /** The zeroconf query classes: IPv4-only, IPv6-only, and both families. */
  datatype ResolverKind = AddressResolverIPv4 | AddressResolverIPv6 | AddressResolver

  /** Address family to the query class that serves it. */
  const FAMILY_TO_RESOLVER_CLASS: map<int, ResolverKind> :=
    map[AF_INET := AddressResolverIPv4, AF_INET6 := AddressResolverIPv6, AF_UNSPEC := AddressResolver]

  /** A fresh discovery query for one fully-qualified name. */
  datatype Query = Query(kind: ResolverKind, server: string)

  /**
   * Build the query for `host`. A family outside the three known ones is a
   * failed dictionary lookup; it yields `None` (the source raises `KeyError`).
   */
  function MakeResolver(host: string, family: int): (r: Option<Query>)
    requires |host| > 0
    ensures r.Some? <==> family == AF_INET || family == AF_INET6 || family == AF_UNSPEC
    ensures r.Some? ==> r.value.server == Normalise(host)
    ensures family == AF_INET ==> r == Some(Query(AddressResolverIPv4, Normalise(host)))
    ensures family == AF_INET6 ==> r == Some(Query(AddressResolverIPv6, Normalise(host)))
    ensures family == AF_UNSPEC ==> r == Some(Query(AddressResolver, Normalise(host)))
  {
    if family in FAMILY_TO_RESOLVER_CLASS then
      var resolverClass := FAMILY_TO_RESOLVER_CLASS[family];
      var name := if host[|host| - 1] != '.' then host + "." else host;
      Some(Query(resolverClass, name))
    else
      None
  }
}
