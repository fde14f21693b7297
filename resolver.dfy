/**
 * The resolver object: its configuration, its ownership of the discovery
 * engine handle, `close()`, and `resolve` for both public variants
 * (`AsyncMDNSResolver` and `AsyncDualMDNSResolver` differ only in how
 * `.local` names are resolved).
 */
module Resolver {
  import opened Wrappers
  import opened Records
  import opened Routing
  import Lookup
  import Race

  /** The mDNS request timeout, in seconds, when none is configured. */
  const DEFAULT_TIMEOUT: real := 5.0

  /** The discovery engine handle; only whether it has been closed is modelled. */
  class Zeroconf {
    var closed: bool

    constructor ()
      ensures !closed
    {
      closed := false;
    }
  }

  class MdnsResolver {
    /** True for `AsyncDualMDNSResolver`, false for `AsyncMDNSResolver`. */
    const dual: bool
    var mdnsTimeout: Option<real>
    /** True when this resolver created the handle and so must close it. */
    var aiozcOwner: bool
    /** The handle; `null` once `close()` has run. */
    var aiozc: Zeroconf?
    /** Whether the parent resolver's `close()` has run. */
    var parentClosed: bool

    /** Use the given handle, or create (and own) one when none is given. */
    constructor (dual: bool, asyncZeroconf: Zeroconf?, mdnsTimeout: Option<real> := Some(DEFAULT_TIMEOUT))
      ensures this.dual == dual && this.mdnsTimeout == mdnsTimeout
      ensures aiozcOwner <==> asyncZeroconf == null
      ensures asyncZeroconf != null ==> aiozc == asyncZeroconf
      ensures asyncZeroconf == null ==> aiozc != null && fresh(aiozc) && !aiozc.closed
      ensures !parentClosed
    {
      this.dual := dual;
      this.mdnsTimeout := mdnsTimeout;
      aiozcOwner := asyncZeroconf == null;
      if asyncZeroconf != null {
        aiozc := asyncZeroconf;
      } else {
        aiozc := new Zeroconf();
      }
      parentClosed := false;
    }

    /**
     * Close the handle if this resolver owns it, close the parent resolver,
     * and drop the handle either way. A second `close()` of an owning
     * resolver finds no handle and raises `AttributeError`.
     */
    method Close() returns (r: Result<(), Lookup.Error>)
      modifies this, if aiozcOwner && aiozc != null then {aiozc} else {}
      ensures aiozcOwner == old(aiozcOwner) && mdnsTimeout == old(mdnsTimeout)
      ensures aiozc == null
      ensures old(aiozcOwner) && old(aiozc) == null ==>
        r == Err(Lookup.AttributeError("async_close")) && parentClosed == old(parentClosed)
      ensures !(old(aiozcOwner) && old(aiozc) == null) ==> r == Ok(()) && parentClosed
      ensures old(aiozcOwner) && old(aiozc) != null ==> old(aiozc).closed
      ensures !old(aiozcOwner) && old(aiozc) != null ==> old(aiozc).closed == old(aiozc.closed)
    {
      if aiozcOwner {
        if aiozc == null {
          return Err(Lookup.AttributeError("async_close"));
        }
        aiozc.closed := true;
      }
      parentClosed := true;
      aiozc := null;
      r := Ok(());
    }

    /**
     * Resolve `host` (by default on port 0 for IPv4). The discovery state, the parent resolver's answer and
     * which of the racing tasks finished first are inputs.
     */
    method Resolve(
      host: string,
      d: Lookup.Discovery, parent: Result<seq<ResolveResult>, string>, first: Race.FirstCompleted,
      port: int := 0, family: int := AF_INET)
      returns (res: Lookup.Resolution<Lookup.Error>)
      ensures !dual ==> res == Lookup.Resolve(mdnsTimeout, aiozc != null, host, port, family, d, parent)
      ensures dual ==> res == Race.Resolve(mdnsTimeout, aiozc != null, host, port, family, d, parent, first)
      ensures !IsMdnsName(host) ==> res == Lookup.Resolution(Lookup.Raised(parent), None)
      ensures aiozc == null && IsMdnsName(host) && family in Lookup.FAMILY_TO_IP_VERSION ==>
        res == Lookup.Resolution(Err(Lookup.AttributeError("zeroconf")), None)
    {
      if !dual {
        return Lookup.Resolve(mdnsTimeout, aiozc != null, host, port, family, d, parent);
      }
      if !IsMdnsName(host) {
        return Lookup.Resolution(Lookup.Raised(parent), None);
      }
      var info := MakeResolver(host, family);
      if info.None? {
        return Lookup.Resolution(Err(Lookup.KeyError(family)), None);
      }
      if aiozc == null {
        return Lookup.Resolution(Err(Lookup.AttributeError("zeroconf")), None);
      }
      if d.cacheHit {
        return Lookup.Resolution(Lookup.Raised(Lookup.AddressesFromInfoOrRaise(info.value, d.fromCache, family)), None);
      }
      var mdns := Lookup.ResolveMdns(mdnsTimeout, info.value, family, d);
      var mdnsFinal, dnsFinal := Race.TaskOf(mdns.outcome), Race.TaskOf(parent);
      var started := Race.AtFirstCompletion(first, mdnsFinal, dnsFinal);
      var waited := Race.WaitForOther(started.0, started.1, mdnsFinal, dnsFinal);
      var results, errors, cancelled := Race.Merge([waited.0, waited.1]);
      res := Lookup.Resolution(Race.Decide(results, errors), mdns.requestMillis);
    }
  }

  /**
   * A resolver given an external handle does not own it: closing the
   * resolver drops its reference and leaves the handle open.
   */
  method ExternalHandleLifecycle(dual: bool) returns (owner: bool, handleClosed: bool, dropped: bool)
    ensures !owner && !handleClosed && dropped
  {
    var handle := new Zeroconf();
    var resolver := new MdnsResolver(dual, handle);
    var _ := resolver.Close();
    owner, handleClosed, dropped := resolver.aiozcOwner, handle.closed, resolver.aiozc == null;
  }

  /**
   * A resolver that created its own handle is its owner: closing the
   * resolver closes the handle and drops the reference. A second close finds
   * the handle dropped and raises `AttributeError`.
   */
  method OwnedHandleLifecycle(dual: bool)
    returns (owner: bool, handleClosed: bool, dropped: bool, first: Result<(), Lookup.Error>, second: Result<(), Lookup.Error>)
    ensures owner && handleClosed && dropped
    ensures first == Ok(()) && second == Err(Lookup.AttributeError("async_close"))
  {
    var resolver := new MdnsResolver(dual, null);
    var handle := resolver.aiozc;
    first := resolver.Close();
    handleClosed, dropped := handle.closed, resolver.aiozc == null;
    second := resolver.Close();
    owner := resolver.aiozcOwner;
  }
}
