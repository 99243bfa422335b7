# HTTP gateway Kubernetes mapping cache

This project models the reconciliation core of the fabric8 HTTP gateway's
Kubernetes mapping cache (`HttpMappingKubeCache`). The gateway is configured with
a list of selector groups and, optionally, an API manager. On each cycle the cache
lists the Kubernetes services and keeps the ones whose selector satisfies one of the
groups. For each such service it publishes an add/update mapping rule: the context
path is the service name and the single target is `serviceURL + "/" + name`.
When an API manager is configured, the walk over the services stops at the first
matched service the API manager has no mapping for. Every context path that was
cached at the start of the cycle but not confirmed is then removed. A failure to
list the services is swallowed.

The files:

- `seqs.dfy` (module `Seqs`) holds the list operations the cache relies on:
  - `Without`, which filters a list by a set;
  - `RemoveFirst`, which is `List.remove(Object)`;
  - `Appended`, which appends a name only when it is not already present (`contains` then `add`).
- `selector.dfy` (module `Selector`) defines what it means for a service selector
  to match the configured groups, and proves the facts about it.
- `kube_cache.dfy` (module `KubeCache`) holds:
  - the records: a service, the listing outcome, the service DTO, and one call of `updateMappingRules`;
  - `ParamValue` and `Params`;
  - the functions that specify one cycle.
- `cycle_properties.dfy` (module `CycleProperties`) proves what a cycle promises:
  - which services are accepted, including the early stop;
  - the shape and order of the published calls;
  - the cache after one cycle, after a second identical cycle, and after a run of cycles;
  - that the cache holds exactly the paths whose latest rule call is an add/update;
  - some concrete scenarios.
- `mapping_cache.dfy` (module `MappingCache`) holds the class `HttpMappingKubeCache`.
  It has the `contextPathsCache` field and a ghost log of every `updateMappingRules`
  call. Its invariant is that the cache has no duplicates and holds exactly the
  paths that have an add/update call in the log with no later removal. Its
  `SelectorMatch` loop and its `RefreshServices` method are each proved against
  the specification functions. `RefreshServices` is split the way its body is laid
  out: the walk over the services (`PublishMatches`), publishing one service
  (`Publish`) and the removal pass (`RemoveUnconfirmed`).

The API manager is modelled in two parts. Whether one is configured is fixed
when the object is built. The names it holds a mapping for are passed to each
cycle, because `getApiManagerServiceMapping` is asked afresh on every cycle.
`GateOf` combines the two into the cycle's answer: `None` when no API manager
is configured, otherwise the set of names it currently maps.

How one cycle is specified:

- `Accepted(groups, GateOf(hasApiManager, registered), items)` walks the snapshot the way the loop does.
  It skips unmatched services, stops at the first blocked one, and keeps the rest.
- `CycleCalls(cache, accepted)` is the calls of the cycle: one add/update per
  accepted service, then one removal per unconfirmed path.
- `CacheAfter(cache, accepted)` is the cache left behind.
- `RefreshServices` is proved to produce exactly these.
- `CycleProperties` then proves the properties of these functions for every input.

The model follows the code in three places where a reader might expect the cache to behave differently:

- An add/update call is made for every accepted service on every cycle, even when
  its path is cached already. The call at lines 139-140 is outside the
  `contains` test at line 135. See `ScenarioCachedIsUpdatedAgain`.
- After the `break` at line 118, the removal loop at lines 145-150 still runs.
  A cached path that was not reached before the stop is therefore removed, rather
  than being left alone. See `EarlyStopCache`, `ScenarioEarlyStop` and `ScenarioUnreached`.
- The blocked service ends the whole walk. It is not merely skipped, so later
  registered services are not published in that cycle. The blocked service itself
  is published in a later cycle once the API manager maps it, and so are the
  services after it, provided no other matched service before them is unmapped.
  See `ScenarioRegisteredLater`, `EarlyStop` and `NoneBlockedAcceptsAllMatching`.

## Model

| member | source | states |
|---|---|---|
| KubeCache.ParamValue | components/gateway-fabric/src/main/java/io/fabric8/gateway/fabric/support/http/HttpMappingKubeCache.java:72-74 | a present value is returned unchanged and null becomes the empty string |
| KubeCache.Get | components/gateway-fabric/src/main/java/io/fabric8/gateway/fabric/support/http/HttpMappingKubeCache.java:124-125 | `selector.get(key)` is present exactly when the key is in the map, and is then its value |
| KubeCache.Params | components/gateway-fabric/src/main/java/io/fabric8/gateway/fabric/support/http/HttpMappingKubeCache.java:127-130 | the published parameters have exactly the keys id, container and version; each holds the DTO's value, or "" when that value is null |
| KubeCache.ToDTO | components/gateway-fabric/src/main/java/io/fabric8/gateway/fabric/support/http/HttpMappingKubeCache.java:122-125 | the descriptor's id is the service name; its container and version are present exactly when the selector has that key, and then hold the selector's value |
| KubeCache.TargetURL | components/gateway-fabric/src/main/java/io/fabric8/gateway/fabric/support/http/HttpMappingKubeCache.java:132-133 | the target is the service URL, then "/", then the service name |
| KubeCache.AddCall | components/gateway-fabric/src/main/java/io/fabric8/gateway/fabric/support/http/HttpMappingKubeCache.java:132-140 | an accepted service's call is an add/update for its name, with its target URL as the only service, a descriptor with its name as id, and parameters with exactly the keys id, container and version |
| KubeCache.Blocked | components/gateway-fabric/src/main/java/io/fabric8/gateway/fabric/support/http/HttpMappingKubeCache.java:112-119 | a matched service with an API manager configured that has no mapping for its name; characterised by `KubeCache.AcceptedStep`, `CycleProperties.AcceptedStopsAt` and `CycleProperties.EarlyStop` |
| KubeCache.Accepted | components/gateway-fabric/src/main/java/io/fabric8/gateway/fabric/support/http/HttpMappingKubeCache.java:107-119 | the walk over the snapshot: unmatched services skipped, stop at the first blocked one; characterised by `KubeCache.AcceptedStep`, `CycleProperties.AcceptedAreMatched`, `CycleProperties.EarlyStop` and `CycleProperties.NoneBlockedAcceptsAllMatching` |
| KubeCache.GateOf | components/gateway-fabric/src/main/java/io/fabric8/gateway/fabric/support/http/HttpMappingKubeCache.java:112-116 | the cycle's API-manager answer: none when no API manager is configured, otherwise the names it maps now; characterised by `CycleProperties.NoApiManagerAcceptsAllMatching`, `CycleProperties.AcceptedAreMatched` and `CycleProperties.ScenarioRegisteredLater` |
| KubeCache.Names | components/gateway-fabric/src/main/java/io/fabric8/gateway/fabric/support/http/HttpMappingKubeCache.java:110-110 | the context paths of the accepted services, one per service, in order; characterised by `CycleProperties.NamesShape` and `CycleProperties.NamesElems` |
| KubeCache.AddCalls | components/gateway-fabric/src/main/java/io/fabric8/gateway/fabric/support/http/HttpMappingKubeCache.java:139-140 | one add/update call per accepted service, in snapshot order; characterised by `CycleProperties.AddCallsShape` |
| KubeCache.RemovalCalls | components/gateway-fabric/src/main/java/io/fabric8/gateway/fabric/support/http/HttpMappingKubeCache.java:145-147 | one removal call per path, in order; characterised by `CycleProperties.RemovalCallsShape` |
| KubeCache.Unconfirmed | components/gateway-fabric/src/main/java/io/fabric8/gateway/fabric/support/http/HttpMappingKubeCache.java:102-141 | what is left of the start-of-cycle copy after each accepted path is removed from it; characterised by `CycleProperties.RemovalsExact` |
| KubeCache.CycleCalls | components/gateway-fabric/src/main/java/io/fabric8/gateway/fabric/support/http/HttpMappingKubeCache.java:107-150 | the `updateMappingRules` calls of one cycle; characterised by `CycleProperties.CycleCallsShape`, `CycleProperties.RemovalsExact`, `CycleProperties.AddsBeforeRemovals` and `CycleProperties.AddCallsAreAccepted` |
| KubeCache.CacheAfter | components/gateway-fabric/src/main/java/io/fabric8/gateway/fabric/support/http/HttpMappingKubeCache.java:135-149 | `contextPathsCache` at the end of a successful cycle; characterised by `CycleProperties.CacheAfterElems`, `CycleProperties.CacheAfterNoDup` and `CycleProperties.TracksAfterCycle` |
| Selector.Matches | components/gateway-fabric/src/main/java/io/fabric8/gateway/fabric/support/http/HttpMappingKubeCache.java:81-94 | some group has every key present in the selector with an equal value; characterised by `Selector.MatchesIffSomeGroup` in both directions |
| Seqs.RemoveFirst | components/gateway-fabric/src/main/java/io/fabric8/gateway/fabric/support/http/HttpMappingKubeCache.java:141-149 | `List.remove(Object)`; characterised by `Seqs.RemoveFirstAt`, `Seqs.RemoveFirstAbsent`, `Seqs.RemoveFirstMultiset` and `Seqs.RemoveFirstIsWithout` |
| Seqs.Appended | components/gateway-fabric/src/main/java/io/fabric8/gateway/fabric/support/http/HttpMappingKubeCache.java:135-138 | `contains` then `add` for each name in turn; characterised by `Seqs.AppendedElems` and `Seqs.AppendedNoDup` |
| Seqs.Without | components/gateway-fabric/src/main/java/io/fabric8/gateway/fabric/support/http/HttpMappingKubeCache.java:145-150 | the list with every element of a set filtered out, order kept; characterised by `Seqs.WithoutElems` and `Seqs.WithoutNoDup` |
| MappingCache.HttpMappingKubeCache.constructor | components/gateway-fabric/src/main/java/io/fabric8/gateway/fabric/support/http/HttpMappingKubeCache.java:53-61 | construction followed by `init` keeps the configured selector groups and whether an API manager is configured, starts with an empty cache and no calls, and establishes the invariant |
| MappingCache.HttpMappingKubeCache.SelectorMatch | components/gateway-fabric/src/main/java/io/fabric8/gateway/fabric/support/http/HttpMappingKubeCache.java:81-94 | the nested loop over groups and keys returns true exactly when `Matches` holds for the configured groups |
| MappingCache.HttpMappingKubeCache.RefreshServices | components/gateway-fabric/src/main/java/io/fabric8/gateway/fabric/support/http/HttpMappingKubeCache.java:101-154 | a failed list leaves the cache and the call log unchanged; otherwise, with this cycle's API-manager registrations, the log grows by exactly `CycleCalls` of the accepted services and the cache becomes `CacheAfter`; the cache stays free of duplicates and holds exactly the paths whose last rule call in the whole log is an add/update; the new cache is `Cycle` of the old one and this cycle's poll |
| MappingCache.HttpMappingKubeCache.PublishMatches | components/gateway-fabric/src/main/java/io/fabric8/gateway/fabric/support/http/HttpMappingKubeCache.java:102-143 | the walk over the snapshot appends the accepted services' names to the cache unless present, logs exactly their add/update calls in order, and leaves in the start-of-cycle copy exactly the unconfirmed paths |
| MappingCache.HttpMappingKubeCache.Publish | components/gateway-fabric/src/main/java/io/fabric8/gateway/fabric/support/http/HttpMappingKubeCache.java:122-140 | publishing one service appends its path to the cache unless present and logs exactly one add/update call built from its descriptor, parameters and target URL |
| MappingCache.HttpMappingKubeCache.RemoveUnconfirmed | components/gateway-fabric/src/main/java/io/fabric8/gateway/fabric/support/http/HttpMappingKubeCache.java:145-150 | the removal pass logs one removal per remaining path, in order, and filters those paths out of the cache |
| KubeCache.AcceptedStep | components/gateway-fabric/src/main/java/io/fabric8/gateway/fabric/support/http/HttpMappingKubeCache.java:107-119 | looking at one more service: an unmatched one is skipped, a matched one without an API-manager mapping ends the walk, any other matched one is accepted |
| KubeCache.WalkedStep | components/gateway-fabric/src/main/java/io/fabric8/gateway/fabric/support/http/HttpMappingKubeCache.java:132-141 | publishing one accepted service: its path is appended to the cache unless present, one add/update call is logged, and it is dropped from the start-of-cycle copy |
| KubeCache.RemovedStep | components/gateway-fabric/src/main/java/io/fabric8/gateway/fabric/support/http/HttpMappingKubeCache.java:145-150 | removing one unconfirmed path: one removal call is logged and the path leaves the cache |
| KubeCache.ConfirmStep | components/gateway-fabric/src/main/java/io/fabric8/gateway/fabric/support/http/HttpMappingKubeCache.java:141-141 | on a duplicate-free list, `remove(path)` equals filtering the path out |
| Seqs.RemoveFirstIsWithout | components/gateway-fabric/src/main/java/io/fabric8/gateway/fabric/support/http/HttpMappingKubeCache.java:149-149 | on a duplicate-free list, removing the first occurrence removes every occurrence |
| Seqs.RemoveFirstAt | components/gateway-fabric/src/main/java/io/fabric8/gateway/fabric/support/http/HttpMappingKubeCache.java:141-149 | `remove(x)` with the first `x` at index i keeps everything before i and after i, in order |
| Seqs.RemoveFirstAbsent | components/gateway-fabric/src/main/java/io/fabric8/gateway/fabric/support/http/HttpMappingKubeCache.java:141-149 | `remove(x)` on a list without `x` leaves it unchanged |
| Seqs.RemoveFirstMultiset | components/gateway-fabric/src/main/java/io/fabric8/gateway/fabric/support/http/HttpMappingKubeCache.java:141-149 | `remove(x)` takes out exactly one copy of `x` when there is one, and nothing else |
| Seqs.AppendedNoDup | components/gateway-fabric/src/main/java/io/fabric8/gateway/fabric/support/http/HttpMappingKubeCache.java:135-138 | appending a path only when it is absent keeps the cache free of duplicates |
| Seqs.WithoutNoDup | components/gateway-fabric/src/main/java/io/fabric8/gateway/fabric/support/http/HttpMappingKubeCache.java:145-150 | removing paths keeps the cache free of duplicates |
| Seqs.AppendedElems | components/gateway-fabric/src/main/java/io/fabric8/gateway/fabric/support/http/HttpMappingKubeCache.java:135-138 | the cache keeps its old order as a prefix and gains exactly the new names |
| Seqs.WithoutElems | components/gateway-fabric/src/main/java/io/fabric8/gateway/fabric/support/http/HttpMappingKubeCache.java:145-150 | filtering keeps exactly the elements outside the removed set |
| Selector.MatchesIffSomeGroup | components/gateway-fabric/src/main/java/io/fabric8/gateway/fabric/support/http/HttpMappingKubeCache.java:81-94 | a selector matches exactly when some configured group has every key present in it with an equal value |
| Selector.NoGroupsMatchNothing | components/gateway-fabric/src/main/java/io/fabric8/gateway/fabric/support/http/HttpMappingKubeCache.java:83-93 | with no groups configured, no selector matches |
| Selector.EmptyGroupMatchesAll | components/gateway-fabric/src/main/java/io/fabric8/gateway/fabric/support/http/HttpMappingKubeCache.java:84-91 | a group without keys matches every selector |
| Selector.MatchesPermutation | components/gateway-fabric/src/main/java/io/fabric8/gateway/fabric/support/http/HttpMappingKubeCache.java:83-92 | reordering the configured groups does not change whether a selector matches |
| CycleProperties.MatchingElems | components/gateway-fabric/src/main/java/io/fabric8/gateway/fabric/support/http/HttpMappingKubeCache.java:107-109 | a service passes the selector filter exactly when it is in the snapshot and matches |
| CycleProperties.AcceptedAreMatched | components/gateway-fabric/src/main/java/io/fabric8/gateway/fabric/support/http/HttpMappingKubeCache.java:107-120 | every accepted service is in the snapshot and matches, and with an API manager it has a mapping there; unmatched services are never published |
| CycleProperties.NoneBlockedAcceptsAllMatching | components/gateway-fabric/src/main/java/io/fabric8/gateway/fabric/support/http/HttpMappingKubeCache.java:107-143 | with no blocked service, the cycle accepts every matching service in snapshot order |
| CycleProperties.NoApiManagerAcceptsAllMatching | components/gateway-fabric/src/main/java/io/fabric8/gateway/fabric/support/http/HttpMappingKubeCache.java:112-120 | without an API manager, every matching service is accepted |
| CycleProperties.AcceptedStopsAt | components/gateway-fabric/src/main/java/io/fabric8/gateway/fabric/support/http/HttpMappingKubeCache.java:116-118 | a blocked service ends the walk: nothing at or after it is accepted |
| CycleProperties.EarlyStop | components/gateway-fabric/src/main/java/io/fabric8/gateway/fabric/support/http/HttpMappingKubeCache.java:112-119 | when `k` is the first blocked service, the cycle accepts exactly the matching services before `k` |
| CycleProperties.NamesShape | components/gateway-fabric/src/main/java/io/fabric8/gateway/fabric/support/http/HttpMappingKubeCache.java:110-110 | the names of the accepted services are their context paths, one per service, in order |
| CycleProperties.NamesElems | components/gateway-fabric/src/main/java/io/fabric8/gateway/fabric/support/http/HttpMappingKubeCache.java:110-110 | a path is among the accepted names exactly when some accepted service has that name |
| CycleProperties.AddCallsShape | components/gateway-fabric/src/main/java/io/fabric8/gateway/fabric/support/http/HttpMappingKubeCache.java:139-140 | one add/update call per accepted service, in snapshot order |
| CycleProperties.RemovalCallsShape | components/gateway-fabric/src/main/java/io/fabric8/gateway/fabric/support/http/HttpMappingKubeCache.java:145-147 | one removal call per unconfirmed path, in cache order |
| CycleProperties.CycleCallsShape | components/gateway-fabric/src/main/java/io/fabric8/gateway/fabric/support/http/HttpMappingKubeCache.java:107-150 | a cycle's calls are one add/update per accepted service, cached or not, followed by one removal per unconfirmed path |
| CycleProperties.AddEvenWhenCached | components/gateway-fabric/src/main/java/io/fabric8/gateway/fabric/support/http/HttpMappingKubeCache.java:135-140 | every accepted service gets its add/update call even when its path is already cached |
| CycleProperties.RemovalsExact | components/gateway-fabric/src/main/java/io/fabric8/gateway/fabric/support/http/HttpMappingKubeCache.java:102-150 | removals go exactly to the paths cached at the start of the cycle that no accepted service confirmed, each path once |
| CycleProperties.AddsBeforeRemovals | components/gateway-fabric/src/main/java/io/fabric8/gateway/fabric/support/http/HttpMappingKubeCache.java:139-147 | every add/update call comes before every removal, and no removal targets a path added or updated in the same cycle |
| CycleProperties.CacheAfterElems | components/gateway-fabric/src/main/java/io/fabric8/gateway/fabric/support/http/HttpMappingKubeCache.java:135-149 | after a cycle the cache holds, as a set, exactly the names of the accepted services, whatever it held before |
| CycleProperties.CacheAfterNoDup | components/gateway-fabric/src/main/java/io/fabric8/gateway/fabric/support/http/HttpMappingKubeCache.java:135-149 | a cycle keeps the cache free of duplicates |
| CycleProperties.SteadyState | components/gateway-fabric/src/main/java/io/fabric8/gateway/fabric/support/http/HttpMappingKubeCache.java:102-149 | with a successful list and no early stop, the cache ends holding exactly the names of the matching services |
| CycleProperties.EarlyStopCache | components/gateway-fabric/src/main/java/io/fabric8/gateway/fabric/support/http/HttpMappingKubeCache.java:112-150 | after an early stop, the cache holds exactly the names of the matching services before the stop; cached paths of later services are removed |
| CycleProperties.SecondCycleQuiet | components/gateway-fabric/src/main/java/io/fabric8/gateway/fabric/support/http/HttpMappingKubeCache.java:102-150 | a second cycle over the same accepted services issues no removals, only the add/update calls, and leaves the cache unchanged |
| CycleProperties.RunNoDup | components/gateway-fabric/src/main/java/io/fabric8/gateway/fabric/support/http/HttpMappingKubeCache.java:101-154 | every cycle of a run keeps the cache free of duplicates |
| CycleProperties.Convergence | components/gateway-fabric/src/main/java/io/fabric8/gateway/fabric/support/http/HttpMappingKubeCache.java:101-154 | after a run whose last list succeeded, the cache holds exactly the names that the last cycle accepted |
| CycleProperties.FailedListKeepsCache | components/gateway-fabric/src/main/java/io/fabric8/gateway/fabric/support/http/HttpMappingKubeCache.java:104-153 | a cycle whose list fails leaves the cache as it was |
| CycleProperties.Cycle | components/gateway-fabric/src/main/java/io/fabric8/gateway/fabric/support/http/HttpMappingKubeCache.java:101-154 | one `refreshServices` call's effect on the cache: a failed list, swallowed at lines 151-153, keeps it, otherwise it becomes `CacheAfter`; tied to the method by the last ensures of `MappingCache.HttpMappingKubeCache.RefreshServices` and characterised by `CycleProperties.FailedListKeepsCache` |
| CycleProperties.Run | components/gateway-fabric/src/main/java/io/fabric8/gateway/fabric/support/http/HttpMappingKubeCache.java:65-99 | the cache after one `run` per scheduled tick, each with what that tick sees; characterised by `CycleProperties.RunNoDup`, `CycleProperties.Convergence` and `CycleProperties.FailedListKeepsCache` |
| CycleProperties.AddCallsAreAccepted | components/gateway-fabric/src/main/java/io/fabric8/gateway/fabric/support/http/HttpMappingKubeCache.java:139-147 | in a cycle's calls, every add/update comes before the removals and is the call for the accepted service at the same position |
| CycleProperties.LiveAppended | components/gateway-fabric/src/main/java/io/fabric8/gateway/fabric/support/http/HttpMappingKubeCache.java:139-150 | an add/update call for a path with no later removal of it makes the path live, whatever the earlier log holds |
| CycleProperties.LiveWhenAccepted | components/gateway-fabric/src/main/java/io/fabric8/gateway/fabric/support/http/HttpMappingKubeCache.java:135-150 | after a cycle, every accepted service's path has an add/update call with no later removal of it |
| CycleProperties.NotLiveWhenDropped | components/gateway-fabric/src/main/java/io/fabric8/gateway/fabric/support/http/HttpMappingKubeCache.java:102-150 | after a cycle, a path the cycle did not accept has no add/update call that is not followed by a removal of it |
| CycleProperties.TracksAfterCycle | components/gateway-fabric/src/main/java/io/fabric8/gateway/fabric/support/http/HttpMappingKubeCache.java:101-154 | if the cache held exactly the paths whose last rule call was an add/update, it still does after a cycle |
| CycleProperties.FirstCycleSingle | components/gateway-fabric/src/main/java/io/fabric8/gateway/fabric/support/http/HttpMappingKubeCache.java:135-140 | a first cycle accepting one service publishes one add/update for it and caches its path |
| CycleProperties.ScenarioOneMatch | components/gateway-fabric/src/main/java/io/fabric8/gateway/fabric/support/http/HttpMappingKubeCache.java:107-140 | group container=foo, with services svc1 {container: foo, version: v1} and svc2 {container: bar}: one add for svc1 with parameters {id: svc1, container: foo, version: v1}, and nothing for svc2 |
| CycleProperties.ScenarioRemoval | components/gateway-fabric/src/main/java/io/fabric8/gateway/fabric/support/http/HttpMappingKubeCache.java:145-150 | a cached path and a snapshot with nothing matching: one removal for the path, and the cache ends empty |
| CycleProperties.ScenarioCachedIsUpdatedAgain | components/gateway-fabric/src/main/java/io/fabric8/gateway/fabric/support/http/HttpMappingKubeCache.java:135-141 | a matching service whose path is cached already is published again, and the cache is unchanged |
| CycleProperties.ScenarioEarlyStop | components/gateway-fabric/src/main/java/io/fabric8/gateway/fabric/support/http/HttpMappingKubeCache.java:112-150 | with a and c registered and b not, and a and c cached: a is updated, the walk stops at b, and c is removed |
| CycleProperties.ScenarioUnreached | components/gateway-fabric/src/main/java/io/fabric8/gateway/fabric/support/http/HttpMappingKubeCache.java:141-150 | a cycle accepting only a, with a and c cached: one add/update for a, one removal for c, and only a stays cached |
| CycleProperties.ScenarioNotYetMapped | components/gateway-fabric/src/main/java/io/fabric8/gateway/fabric/support/http/HttpMappingKubeCache.java:112-118 | a matching service the API manager does not map is not published, and the cache stays empty |
| CycleProperties.ScenarioRegisteredLater | components/gateway-fabric/src/main/java/io/fabric8/gateway/fabric/support/http/HttpMappingKubeCache.java:112-118 | a matching service the API manager does not map is not published; once it is mapped, the next cycle publishes it |
| CycleProperties.NothingMatching | components/gateway-fabric/src/main/java/io/fabric8/gateway/fabric/support/http/HttpMappingKubeCache.java:107-109 | a snapshot in which no selector matches yields no matching services |

## Left out

- Scheduling is left out: `init` starts a fixed-delay executor, `destroy` shuts it down, and `run` delegates to `refreshServices`. `RefreshServices` is one call per cycle, and `CycleProperties.Run` strings cycles together.
- The Kubernetes client is not part of this model. `client.services().list()` is the `ServiceListing` parameter, and `getSelector`, `getName` and `getServiceURL` are the fields of `Service`.
- The internals of `HttpMappingRule.updateMappingRules` and `ApiManager` are not part of this model:
  - each rule call is appended to a ghost log instead;
  - the API manager is whether one is configured, plus the set of names it holds a mapping for in each cycle.
- Logging and `printStackTrace` are left out.
- Exceptions other than a failed list are not modelled. These include a failing rule consumer, a null service selector, and a null label value reaching `equals`. Each would stop the cycle part-way, with its partial effects. In the model every selector and label value is a string and the consumer never fails.
- The order in which `keySet()` yields a group's keys is not modelled. `SelectorMatch` picks them in any order, and its result does not depend on the order.
- The fields of `ServiceDTO` other than id, container and version are not modelled.
- RefreshServices: the scheduler continuing after a swallowed failure is not stated, because scheduling is left out.
