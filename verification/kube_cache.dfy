/** The gateway's Kubernetes mapping cache: one reconciliation cycle that publishes
    an add/update mapping rule for every accepted service of a snapshot and a
    removal for every cached context path the cycle did not confirm. */
module KubeCache {
  import opened Seqs
  import opened Selector

  datatype Option<T> = None | Some(value: T)

  /** A Kubernetes service as the cache sees it: its name (the context path),
      its selector, and the URL the service is reached at. */
  datatype Service = Service(name: string, selector: map<string, string>, serviceURL: string)

  /** The outcome of listing the services: the snapshot, or a failure. */
  datatype ServiceListing = Listed(items: seq<Service>) | ListFailed

  /** The ServiceDTO passed along with an add; container and version are null
      when the selector has no such key. */
  datatype ServiceDTO = ServiceDTO(id: string, container: Option<string>, version: Option<string>)

  /** One call of `updateMappingRules`. `AddOrUpdate` is a call with isRemoval
      false; `Removal(p)` is the call `updateMappingRules(true, p, null, null, null)`. */
  datatype RuleUpdate =
    | AddOrUpdate(contextPath: string, services: seq<string>, params: map<string, string>, dto: ServiceDTO)
    | Removal(contextPath: string)

  /** `Map.get`: the value under `key`, or null. */
  function Get(m: map<string, string>, key: string): (r: Option<string>)
    ensures r.Some? <==> key in m
    ensures r.Some? ==> r.value == m[key]
  {
    if key in m then Some(m[key]) else None
  }

  /** A parameter value is never null: null becomes the empty string. */
  function ParamValue(value: Option<string>): (r: string)
    ensures value.Some? ==> r == value.value
    ensures value.None? ==> r == ""
  {
    match value
    case Some(v) => v
    case None => ""
  }

  /** The DTO built for a matched service: its id is the service name, and its
      container and version are the selector's values, null when absent. */
  function ToDTO(s: Service): (dto: ServiceDTO)
    ensures dto.id == s.name
    ensures dto.container.Some? <==> "container" in s.selector
    ensures dto.container.Some? ==> dto.container.value == s.selector["container"]
    ensures dto.version.Some? <==> "version" in s.selector
    ensures dto.version.Some? ==> dto.version.value == s.selector["version"]
  {
    ServiceDTO(s.name, Get(s.selector, "container"), Get(s.selector, "version"))
  }

  /** The parameters published with a DTO: exactly `id`, `container` and
      `version`, each the DTO's value or the empty string. */
  function Params(dto: ServiceDTO): (params: map<string, string>)
    ensures params.Keys == {"id", "container", "version"}
    ensures params["id"] == dto.id
    ensures dto.container.Some? ==> params["container"] == dto.container.value
    ensures dto.container.None? ==> params["container"] == ""
    ensures dto.version.Some? ==> params["version"] == dto.version.value
    ensures dto.version.None? ==> params["version"] == ""
  {
    map["id" := ParamValue(Some(dto.id)),
        "container" := ParamValue(dto.container),
        "version" := ParamValue(dto.version)]
  }

  /** The single target of an accepted service: `serviceURL + "/" + name`. */
  function TargetURL(s: Service): (url: string)
    ensures |url| == |s.serviceURL| + 1 + |s.name|
    ensures url[..|s.serviceURL|] == s.serviceURL
    ensures url[|s.serviceURL|] == '/'
    ensures url[|s.serviceURL| + 1..] == s.name
  {
    s.serviceURL + "/" + s.name
  }

  /** The add/update call a cycle issues for an accepted service. */
  function AddCall(s: Service): (call: RuleUpdate)
    ensures call.AddOrUpdate? && call.contextPath == s.name
    ensures call.services == [TargetURL(s)]
    ensures call.dto.id == s.name
    ensures call.params.Keys == {"id", "container", "version"} && call.params["id"] == s.name
  {
    AddOrUpdate(s.name, [TargetURL(s)], Params(ToDTO(s)), ToDTO(s))
  }

  /** What one cycle sees: the outcome of listing the services, and the names
      the API manager holds a mapping for at that time. */
  datatype Poll = Poll(listing: ServiceListing, registered: set<string>)

  /** The API manager's answer during one cycle: None when no API manager is
      configured, otherwise the names it currently holds a mapping for. */
  function GateOf(hasApiManager: bool, registered: set<string>): Option<set<string>> {
    if hasApiManager then Some(registered) else None
  }

  /** A matched service for which the configured API manager has no mapping:
      the walk over the snapshot stops at it. `apiManager` is None when no API
      manager is configured, otherwise the names it holds a mapping for. */
  predicate Blocked(groups: seq<Group>, apiManager: Option<set<string>>, s: Service) {
    Matches(groups, s.selector) && apiManager.Some? && s.name !in apiManager.value
  }

  /** The services one cycle accepts, in snapshot order: every matching service
      up to the first blocked one, where the walk stops. */
  function Accepted(groups: seq<Group>, apiManager: Option<set<string>>, items: seq<Service>): seq<Service> {
    if items == [] then []
    else if !Matches(groups, items[0].selector) then Accepted(groups, apiManager, items[1..])
    else if Blocked(groups, apiManager, items[0]) then []
    else [items[0]] + Accepted(groups, apiManager, items[1..])
  }

  function Names(ss: seq<Service>): seq<string> {
    if ss == [] then [] else Names(ss[..|ss| - 1]) + [ss[|ss| - 1].name]
  }

  function AddCalls(accepted: seq<Service>): seq<RuleUpdate> {
    if accepted == [] then [] else AddCalls(accepted[..|accepted| - 1]) + [AddCall(accepted[|accepted| - 1])]
  }

  function RemovalCalls(paths: seq<string>): seq<RuleUpdate> {
    if paths == [] then [] else RemovalCalls(paths[..|paths| - 1]) + [Removal(paths[|paths| - 1])]
  }

  /** The paths cached at the start of a cycle that no accepted service confirmed. */
  function Unconfirmed(cache: seq<string>, accepted: seq<Service>): seq<string> {
    Without(cache, Elems(Names(accepted)))
  }

  /** The calls one cycle issues: the adds in snapshot order, then the removals. */
  function CycleCalls(cache: seq<string>, accepted: seq<Service>): seq<RuleUpdate> {
    AddCalls(accepted) + RemovalCalls(Unconfirmed(cache, accepted))
  }

  /** The cache after a cycle: new names appended, then the unconfirmed paths dropped. */
  function CacheAfter(cache: seq<string>, accepted: seq<Service>): seq<string> {
    Without(Appended(cache, Names(accepted)), Elems(Unconfirmed(cache, accepted)))
  }

  /** Looking at the service at index `i` of the walk: an unmatched one is
      skipped, a blocked one ends the walk, any other is accepted. */
  lemma AcceptedStep(groups: seq<Group>, apiManager: Option<set<string>>, items: seq<Service>,
                     i: nat, accepted: seq<Service>)
    requires i < |items|
    requires Accepted(groups, apiManager, items) == accepted + Accepted(groups, apiManager, items[i..])
    ensures !Matches(groups, items[i].selector) ==>
      Accepted(groups, apiManager, items) == accepted + Accepted(groups, apiManager, items[i + 1..])
    ensures Blocked(groups, apiManager, items[i]) ==> Accepted(groups, apiManager, items) == accepted
    ensures Matches(groups, items[i].selector) && !Blocked(groups, apiManager, items[i]) ==>
      Accepted(groups, apiManager, items) == (accepted + [items[i]]) + Accepted(groups, apiManager, items[i + 1..])
  {
    assert items[i..][1..] == items[i + 1..];
    AppendAssoc(accepted, [items[i]], Accepted(groups, apiManager, items[i + 1..]));
  }

  /** Dropping the first occurrence of `p` from the list of unconfirmed paths
      confirms `p` (the cache has no duplicates, so there is at most one). */
  lemma ConfirmStep(cache: seq<string>, confirmed: set<string>, p: string)
    requires NoDup(cache)
    ensures RemoveFirst(Without(cache, confirmed), p) == Without(cache, confirmed + {p})
  {
    WithoutNoDup(cache, confirmed);
    RemoveFirstIsWithout(Without(cache, confirmed), p);
    WithoutWithout(cache, confirmed, {p});
  }

  lemma NamesSnoc(before: seq<Service>, s: Service)
    ensures Names(before + [s]) == Names(before) + [s.name]
  {
    assert (before + [s])[..|before|] == before;
  }

  lemma AppendedSnoc(c0: seq<string>, names: seq<string>, p: string)
    ensures var a := Appended(c0, names);
      Appended(c0, names + [p]) == if p in a then a else a + [p]
  {
    assert (names + [p])[..|names|] == names;
  }

  lemma AddCallsSnoc(before: seq<Service>, s: Service)
    ensures AddCalls(before + [s]) == AddCalls(before) + [AddCall(s)]
  {
    assert (before + [s])[..|before|] == before;
  }

  lemma UnconfirmedSnoc(c0: seq<string>, before: seq<Service>, s: Service)
    requires NoDup(c0)
    ensures RemoveFirst(Unconfirmed(c0, before), s.name) == Unconfirmed(c0, before + [s])
  {
    NamesSnoc(before, s);
    assert Elems(Names(before) + [s.name]) == Elems(Names(before)) + {s.name};
    ConfirmStep(c0, Elems(Names(before)), s.name);
  }

  /** Accepting one more service: its name is appended unless cached, it is no
      longer unconfirmed, and its add call follows the earlier ones. */
  lemma AcceptStep(c0: seq<string>, before: seq<Service>, s: Service)
    requires NoDup(c0)
    ensures var p := Appended(c0, Names(before));
      Appended(c0, Names(before + [s])) == if s.name in p then p else p + [s.name]
    ensures RemoveFirst(Unconfirmed(c0, before), s.name) == Unconfirmed(c0, before + [s])
    ensures AddCalls(before + [s]) == AddCalls(before) + [AddCall(s)]
  {
    NamesSnoc(before, s);
    AppendedSnoc(c0, Names(before), s.name);
    UnconfirmedSnoc(c0, before, s);
    AddCallsSnoc(before, s);
  }

  /** Where a cycle stands after accepting `accepted`: the cache has the new
      names appended, the unconfirmed list has them removed and the consumer has
      received their add calls. */
  ghost predicate Walked(c0: seq<string>, log0: seq<RuleUpdate>, accepted: seq<Service>,
                         cache: seq<string>, current: seq<string>, calls: seq<RuleUpdate>)
  {
    && cache == Appended(c0, Names(accepted))
    && current == Unconfirmed(c0, accepted)
    && calls == log0 + AddCalls(accepted)
  }

  lemma WalkedStart(c0: seq<string>, log0: seq<RuleUpdate>)
    ensures Walked(c0, log0, [], c0, c0, log0)
  {
    assert Elems(Names([])) == {};
    WithoutAbsent(c0, {});
  }

  lemma WalkedStep(c0: seq<string>, log0: seq<RuleUpdate>, accepted: seq<Service>,
                   cache: seq<string>, current: seq<string>, calls: seq<RuleUpdate>, s: Service)
    requires NoDup(c0)
    requires Walked(c0, log0, accepted, cache, current, calls)
    ensures Walked(c0, log0, accepted + [s],
                   if s.name in cache then cache else cache + [s.name],
                   RemoveFirst(current, s.name), calls + [AddCall(s)])
  {
    AcceptStep(c0, accepted, s);
    AppendAssoc(log0, AddCalls(accepted), [AddCall(s)]);
  }

  /** Where the removal pass stands after removing `removed`. */
  ghost predicate Removed(c1: seq<string>, log1: seq<RuleUpdate>, removed: seq<string>,
                          cache: seq<string>, calls: seq<RuleUpdate>)
  {
    && cache == Without(c1, Elems(removed))
    && calls == log1 + RemovalCalls(removed)
  }

  lemma RemovedStart(c1: seq<string>, log1: seq<RuleUpdate>)
    ensures Removed(c1, log1, [], c1, log1)
  {
    assert Elems<string>([]) == {};
    WithoutAbsent(c1, {});
  }

  /** Removing one more unconfirmed path from the cache. */
  lemma RemovedStep(c1: seq<string>, log1: seq<RuleUpdate>, removed: seq<string>,
                    cache: seq<string>, calls: seq<RuleUpdate>, p: string)
    requires NoDup(c1)
    requires Removed(c1, log1, removed, cache, calls)
    ensures Removed(c1, log1, removed + [p], RemoveFirst(cache, p), calls + [Removal(p)])
  {
    assert (removed + [p])[..|removed|] == removed;
    assert Elems(removed + [p]) == Elems(removed) + {p};
    ConfirmStep(c1, Elems(removed), p);
    AppendAssoc(log1, RemovalCalls(removed), [Removal(p)]);
  }
}
