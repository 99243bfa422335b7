/** The gateway's mapping cache object: the cache of published context paths,
    the selector matching loop and one reconciliation cycle. */
module MappingCache {
  import opened Seqs
  import opened Selector
  import opened KubeCache
  import opened CycleProperties

  /** The gateway's cache of published context paths, with the configuration it
      reconciles against and a record of every call made to the mapping-rule consumer. */
  class HttpMappingKubeCache {
    const serviceSelectors: seq<Group>
    const hasApiManager: bool
    var contextPathsCache: seq<string>
    ghost var calls: seq<RuleUpdate>

    ghost predicate Valid()
      reads this
    {
      && NoDup(contextPathsCache)
      && Tracks(calls, contextPathsCache)
    }

    /** Construction followed by `init`: the cache starts empty. */
    constructor (serviceSelectors: seq<Group>, hasApiManager: bool)
      ensures this.serviceSelectors == serviceSelectors && this.hasApiManager == hasApiManager
      ensures contextPathsCache == [] && calls == []
      ensures Valid()
    {
      this.serviceSelectors := serviceSelectors;
      this.hasApiManager := hasApiManager;
      contextPathsCache := [];
      calls := [];
      TracksStart();
    }

    /** Does `selector` satisfy every key of at least one configured group? */
    method SelectorMatch(selector: map<string, string>) returns (isMatch: bool)
      ensures isMatch == Matches(serviceSelectors, selector)
    {
      var i := 0;
      while i < |serviceSelectors|
        invariant 0 <= i <= |serviceSelectors|
        invariant Matches(serviceSelectors, selector) == Matches(serviceSelectors[i..], selector)
      {
        var group := serviceSelectors[i];
        var groupMatch := true;
        var keys := group.Keys;
        while keys != {}
          invariant keys <= group.Keys
          invariant forall key :: key in group && key !in keys ==> key in selector && selector[key] == group[key]
          decreases keys
        {
          var key :| key in keys;
          if key !in selector || selector[key] != group[key] {
            groupMatch := false;
            break;
          }
          keys := keys - {key};
        }
        if groupMatch {
          return true;
        }
        assert serviceSelectors[i..][1..] == serviceSelectors[i + 1..];
        i := i + 1;
      }
      return false;
    }

    /** One reconciliation cycle over the outcome of listing the services;
        `registered` holds the names the API manager has a mapping for during
        this cycle, and is not consulted when no API manager is configured. */
    method RefreshServices(listing: ServiceListing, registered: set<string>)
      requires Valid()
      modifies this
      ensures Valid()
      ensures listing.ListFailed? ==> contextPathsCache == old(contextPathsCache) && calls == old(calls)
      ensures listing.Listed? ==>
        var accepted := Accepted(serviceSelectors, GateOf(hasApiManager, registered), listing.items);
        && contextPathsCache == CacheAfter(old(contextPathsCache), accepted)
        && calls == old(calls) + CycleCalls(old(contextPathsCache), accepted)
      ensures contextPathsCache == Cycle(serviceSelectors, hasApiManager, old(contextPathsCache), Poll(listing, registered))
    {
      if listing.ListFailed? {
        // the failed list call is caught and swallowed: nothing is published or changed
        return;
      }
      ghost var c0, log0 := contextPathsCache, calls;
      ghost var accepted := Accepted(serviceSelectors, GateOf(hasApiManager, registered), listing.items);
      var currentCache := PublishMatches(listing.items, registered);
      AppendedNoDup(c0, Names(accepted));
      RemoveUnconfirmed(currentCache);
      AppendAssoc(log0, AddCalls(accepted), RemovalCalls(currentCache));
      WithoutNoDup(Appended(c0, Names(accepted)), Elems(currentCache));
      TracksAfterCycle(log0, c0, accepted);
    }

    /** The walk over the snapshot: every matching service up to the first one
        the API manager has no mapping for gets an add/update call, and its path
        is appended to the cache unless present and dropped from the copy of the
        cache taken at the start. Returns what remains of that copy. */
    method PublishMatches(items: seq<Service>, registered: set<string>) returns (currentCache: seq<string>)
      requires NoDup(contextPathsCache)
      modifies this
      ensures var accepted := Accepted(serviceSelectors, GateOf(hasApiManager, registered), items);
        && contextPathsCache == Appended(old(contextPathsCache), Names(accepted))
        && currentCache == Unconfirmed(old(contextPathsCache), accepted)
        && calls == old(calls) + AddCalls(accepted)
    {
      currentCache := contextPathsCache;
      ghost var c0, log0 := contextPathsCache, calls;
      ghost var gate := GateOf(hasApiManager, registered);
      WalkedStart(c0, log0);
      var i := 0;
      ghost var accepted: seq<Service> := [];
      assert items[i..] == items;
      while i < |items|
        invariant 0 <= i <= |items|
        invariant Accepted(serviceSelectors, gate, items) == accepted + Accepted(serviceSelectors, gate, items[i..])
        invariant Walked(c0, log0, accepted, contextPathsCache, currentCache, calls)
      {
        var service := items[i];
        var isMatch := SelectorMatch(service.selector);
        AcceptedStep(serviceSelectors, gate, items, i, accepted);
        if isMatch {
          var contextPath := service.name;
          if hasApiManager && contextPath !in registered {
            assert Blocked(serviceSelectors, gate, service);
            break;
          }
          assert !Blocked(serviceSelectors, gate, service);
          WalkedStep(c0, log0, accepted, contextPathsCache, currentCache, calls, service);
          Publish(service);
          currentCache := RemoveFirst(currentCache, contextPath);
          accepted := accepted + [service];
          assert Accepted(serviceSelectors, gate, items) == accepted + Accepted(serviceSelectors, gate, items[i + 1..]);
        } else {
          assert Accepted(serviceSelectors, gate, items) == accepted + Accepted(serviceSelectors, gate, items[i + 1..]);
        }
        i := i + 1;
      }
      assert Accepted(serviceSelectors, gate, items) == accepted by {
        if i == |items| {
          assert items[i..] == [];
        }
      }
    }

    /** Publishing one accepted service: its path is appended to the cache
        unless already there, and an add/update call carrying its descriptor,
        parameters and target URL is issued. */
    method Publish(service: Service)
      modifies this
      ensures contextPathsCache ==
        if service.name in old(contextPathsCache) then old(contextPathsCache)
        else old(contextPathsCache) + [service.name]
      ensures calls == old(calls) + [AddCall(service)]
    {
      var contextPath := service.name;
      var dto := ToDTO(service);
      var params := Params(dto);
      var services := [TargetURL(service)];
      if contextPath !in contextPathsCache {
        contextPathsCache := contextPathsCache + [contextPath];
      }
      calls := calls + [AddOrUpdate(contextPath, services, params, dto)];
    }

    /** The removal pass: every path left in `currentCache` gets a removal call
        and is removed from the cache. */
    method RemoveUnconfirmed(currentCache: seq<string>)
      requires NoDup(contextPathsCache)
      modifies this
      ensures contextPathsCache == Without(old(contextPathsCache), Elems(currentCache))
      ensures calls == old(calls) + RemovalCalls(currentCache)
    {
      ghost var c1, log1 := contextPathsCache, calls;
      RemovedStart(c1, log1);
      var j := 0;
      ghost var removed: seq<string> := [];
      while j < |currentCache|
        invariant 0 <= j <= |currentCache|
        invariant removed == currentCache[..j]
        invariant Removed(c1, log1, removed, contextPathsCache, calls)
      {
        var contextPath := currentCache[j];
        RemovedStep(c1, log1, removed, contextPathsCache, calls, contextPath);
        calls := calls + [Removal(contextPath)];
        contextPathsCache := RemoveFirst(contextPathsCache, contextPath);
        removed := removed + [contextPath];
        assert currentCache[..j + 1] == currentCache[..j] + [contextPath];
        j := j + 1;
      }
      assert currentCache[..j] == currentCache;
    }
  }
}
