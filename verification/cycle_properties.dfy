/** What one reconciliation cycle, and a run of cycles, promise about the
    published mapping-rule calls and the cache of context paths. */
module CycleProperties {
  import opened Seqs
  import opened Selector
  import opened KubeCache

  // ---------------------------------------------------------------------------
  // Which services a cycle accepts

  /** Reference definition: the services of a snapshot whose selector matches,
      in snapshot order, ignoring the API manager. */
  function Matching(groups: seq<Group>, items: seq<Service>): seq<Service> {
    if items == [] then []
    else if Matches(groups, items[0].selector) then [items[0]] + Matching(groups, items[1..])
    else Matching(groups, items[1..])
  }

  /** A service is in `Matching` exactly when it is in the snapshot and matches. */
  lemma {:induction false} MatchingElems(groups: seq<Group>, items: seq<Service>)
    ensures forall s :: s in Matching(groups, items) <==> s in items && Matches(groups, s.selector)
  {
    if items != [] {
      MatchingElems(groups, items[1..]);
      assert forall s :: s in items <==> s == items[0] || s in items[1..];
    }
  }

  /** Every accepted service is in the snapshot, matches, and (with an API
      manager configured) has a mapping there; unmatched services are never accepted. */
  lemma {:induction false} AcceptedAreMatched(groups: seq<Group>, apiManager: Option<set<string>>, items: seq<Service>)
    ensures forall s :: s in Accepted(groups, apiManager, items) ==>
      && s in items
      && Matches(groups, s.selector)
      && (apiManager.Some? ==> s.name in apiManager.value)
  {
    if items != [] {
      AcceptedAreMatched(groups, apiManager, items[1..]);
    }
  }

  /** With no blocked service in the snapshot (in particular with no API manager,
      or with every matched name registered), every matching service is accepted. */
  lemma {:induction false} NoneBlockedAcceptsAllMatching(groups: seq<Group>, apiManager: Option<set<string>>, items: seq<Service>)
    requires forall k :: 0 <= k < |items| ==> !Blocked(groups, apiManager, items[k])
    ensures Accepted(groups, apiManager, items) == Matching(groups, items)
  {
    if items != [] {
      assert !Blocked(groups, apiManager, items[0]);
      forall k | 0 <= k < |items[1..]| ensures !Blocked(groups, apiManager, items[1..][k]) {
        assert items[1..][k] == items[k + 1];
      }
      NoneBlockedAcceptsAllMatching(groups, apiManager, items[1..]);
    }
  }

  /** Without an API manager no service is blocked. */
  lemma NoApiManagerAcceptsAllMatching(groups: seq<Group>, items: seq<Service>)
    ensures Accepted(groups, None, items) == Matching(groups, items)
  {
    NoneBlockedAcceptsAllMatching(groups, None, items);
  }

  /** A blocked service ends the walk: nothing at or after it is accepted. */
  lemma {:induction false} AcceptedStopsAt(groups: seq<Group>, apiManager: Option<set<string>>, items: seq<Service>, k: nat)
    requires k < |items| && Blocked(groups, apiManager, items[k])
    ensures Accepted(groups, apiManager, items) == Accepted(groups, apiManager, items[..k])
  {
    if k > 0 {
      assert items[..k][0] == items[0];
      assert items[..k][1..] == items[1..][..k - 1];
      AcceptedStopsAt(groups, apiManager, items[1..], k - 1);
    }
  }

  /** The early stop: when `k` is the first blocked service, the cycle accepts
      exactly the matching services before it. */
  lemma EarlyStop(groups: seq<Group>, apiManager: Option<set<string>>, items: seq<Service>, k: nat)
    requires k < |items| && Blocked(groups, apiManager, items[k])
    requires forall j :: 0 <= j < k ==> !Blocked(groups, apiManager, items[j])
    ensures Accepted(groups, apiManager, items) == Matching(groups, items[..k])
  {
    AcceptedStopsAt(groups, apiManager, items, k);
    NoneBlockedAcceptsAllMatching(groups, apiManager, items[..k]);
  }

  // ---------------------------------------------------------------------------
  // The calls a cycle issues

  lemma {:induction false} NamesShape(ss: seq<Service>)
    ensures |Names(ss)| == |ss|
    ensures forall k :: 0 <= k < |ss| ==> Names(ss)[k] == ss[k].name
  {
    if ss != [] {
      NamesShape(ss[..|ss| - 1]);
    }
  }

  /** A path is among the names of `ss` exactly when some service of `ss` has it. */
  lemma NamesElems(ss: seq<Service>, p: string)
    ensures p in Names(ss) <==> exists k :: 0 <= k < |ss| && ss[k].name == p
  {
    NamesShape(ss);
    if p in Names(ss) {
      var k :| 0 <= k < |Names(ss)| && Names(ss)[k] == p;
      assert ss[k].name == p;
    }
  }

  lemma {:induction false} AddCallsShape(accepted: seq<Service>)
    ensures |AddCalls(accepted)| == |accepted|
    ensures forall k :: 0 <= k < |accepted| ==> AddCalls(accepted)[k] == AddCall(accepted[k])
  {
    if accepted != [] {
      var init := accepted[..|accepted| - 1];
      AddCallsShape(init);
      forall k | 0 <= k < |accepted| ensures AddCalls(accepted)[k] == AddCall(accepted[k]) {
        if k < |init| {
          assert AddCalls(accepted)[k] == AddCalls(init)[k];
          assert accepted[k] == init[k];
        }
      }
    }
  }

  lemma {:induction false} RemovalCallsShape(paths: seq<string>)
    ensures |RemovalCalls(paths)| == |paths|
    ensures forall k :: 0 <= k < |paths| ==> RemovalCalls(paths)[k] == Removal(paths[k])
  {
    if paths != [] {
      RemovalCallsShape(paths[..|paths| - 1]);
    }
  }

  /** The calls of a cycle: first one add/update per accepted service, in snapshot
      order and whether or not its path was cached, then one removal per
      unconfirmed path, in cache order. */
  lemma CycleCallsShape(cache: seq<string>, accepted: seq<Service>)
    ensures var calls, gone := CycleCalls(cache, accepted), Unconfirmed(cache, accepted);
      && |calls| == |accepted| + |gone|
      && (forall k :: 0 <= k < |accepted| ==> calls[k] == AddCall(accepted[k]))
      && (forall k :: 0 <= k < |gone| ==> calls[|accepted| + k] == Removal(gone[k]))
  {
    AddCallsShape(accepted);
    RemovalCallsShape(Unconfirmed(cache, accepted));
  }

  /** Every accepted service gets its add/update call, even when its path is cached already. */
  lemma AddEvenWhenCached(cache: seq<string>, accepted: seq<Service>, s: Service)
    requires s in accepted
    ensures AddCall(s) in CycleCalls(cache, accepted)
  {
    CycleCallsShape(cache, accepted);
    var k :| 0 <= k < |accepted| && accepted[k] == s;
    assert CycleCalls(cache, accepted)[k] == AddCall(s);
  }

  /** Removals go exactly to the paths cached at the start of the cycle that no
      accepted service confirmed; each such path once. */
  lemma RemovalsExact(cache: seq<string>, accepted: seq<Service>)
    requires NoDup(cache)
    ensures forall p :: p in Unconfirmed(cache, accepted) <==> p in cache && p !in Names(accepted)
    ensures NoDup(Unconfirmed(cache, accepted))
    ensures forall p :: Removal(p) in CycleCalls(cache, accepted) <==> p in cache && p !in Names(accepted)
  {
    var gone := Unconfirmed(cache, accepted);
    WithoutElems(cache, Elems(Names(accepted)));
    WithoutNoDup(cache, Elems(Names(accepted)));
    CycleCallsShape(cache, accepted);
    var calls := CycleCalls(cache, accepted);
    forall p ensures Removal(p) in calls <==> p in gone {
      if Removal(p) in calls {
        var k :| 0 <= k < |calls| && calls[k] == Removal(p);
        assert k >= |accepted|;
        assert calls[|accepted| + (k - |accepted|)] == Removal(gone[k - |accepted|]);
      }
      if p in gone {
        var k :| 0 <= k < |gone| && gone[k] == p;
        assert calls[|accepted| + k] == Removal(p);
      }
    }
  }

  /** All add/update calls come before all removals, and no removal targets a
      path added or updated in the same cycle. */
  lemma AddsBeforeRemovals(cache: seq<string>, accepted: seq<Service>)
    ensures var calls := CycleCalls(cache, accepted);
      forall i, j :: 0 <= i < |calls| && 0 <= j < |calls| && calls[i].AddOrUpdate? && calls[j].Removal? ==>
        i < j && calls[i].contextPath != calls[j].contextPath
  {
    var calls, gone := CycleCalls(cache, accepted), Unconfirmed(cache, accepted);
    CycleCallsShape(cache, accepted);
    NamesShape(accepted);
    WithoutElems(cache, Elems(Names(accepted)));
    forall k | 0 <= k < |calls| ensures calls[k].AddOrUpdate? <==> k < |accepted| {
      if k >= |accepted| {
        assert calls[|accepted| + (k - |accepted|)] == Removal(gone[k - |accepted|]);
      }
    }
    forall i, j | 0 <= i < |calls| && 0 <= j < |calls| && calls[i].AddOrUpdate? && calls[j].Removal?
      ensures i < j && calls[i].contextPath != calls[j].contextPath
    {
      assert i < |accepted| <= j;
      assert calls[i] == AddCall(accepted[i]);
      assert calls[|accepted| + (j - |accepted|)] == Removal(gone[j - |accepted|]);
      assert Names(accepted)[i] == accepted[i].name;
      assert gone[j - |accepted|] in gone;
    }
  }

  // ---------------------------------------------------------------------------
  // The cache after a cycle

  /** After a cycle the cache holds, as a set, exactly the names of the accepted
      services, whatever it held before. */
  lemma CacheAfterElems(cache: seq<string>, accepted: seq<Service>)
    ensures forall p :: p in CacheAfter(cache, accepted) <==> p in Names(accepted)
  {
    var names := Names(accepted);
    AppendedElems(cache, names);
    WithoutElems(cache, Elems(names));
    WithoutElems(Appended(cache, names), Elems(Unconfirmed(cache, accepted)));
  }

  /** A cycle keeps the cache free of duplicates. */
  lemma CacheAfterNoDup(cache: seq<string>, accepted: seq<Service>)
    requires NoDup(cache)
    ensures NoDup(CacheAfter(cache, accepted))
  {
    AppendedNoDup(cache, Names(accepted));
    WithoutNoDup(Appended(cache, Names(accepted)), Elems(Unconfirmed(cache, accepted)));
  }

  /** With a successful list and no early stop, the cache afterwards holds, as a
      set, exactly the names of the matching services of the snapshot. */
  lemma SteadyState(groups: seq<Group>, apiManager: Option<set<string>>, items: seq<Service>, cache: seq<string>)
    requires forall k :: 0 <= k < |items| ==> !Blocked(groups, apiManager, items[k])
    ensures forall p :: p in CacheAfter(cache, Accepted(groups, apiManager, items)) <==> p in Names(Matching(groups, items))
  {
    NoneBlockedAcceptsAllMatching(groups, apiManager, items);
    CacheAfterElems(cache, Accepted(groups, apiManager, items));
  }

  /** After an early stop at the first blocked service `k`, the cache holds
      exactly the names of the matching services before it: cached paths of
      services at or after `k` were not confirmed and are removed. */
  lemma EarlyStopCache(groups: seq<Group>, apiManager: Option<set<string>>, items: seq<Service>, k: nat, cache: seq<string>)
    requires k < |items| && Blocked(groups, apiManager, items[k])
    requires forall j :: 0 <= j < k ==> !Blocked(groups, apiManager, items[j])
    ensures forall p :: p in CacheAfter(cache, Accepted(groups, apiManager, items)) <==> p in Names(Matching(groups, items[..k]))
  {
    EarlyStop(groups, apiManager, items, k);
    CacheAfterElems(cache, Accepted(groups, apiManager, items));
  }

  /** A second cycle over the same accepted services issues no removals and
      leaves the cache as the first one left it. */
  lemma SecondCycleQuiet(cache: seq<string>, accepted: seq<Service>)
    ensures var c1 := CacheAfter(cache, accepted);
      && Unconfirmed(c1, accepted) == []
      && CacheAfter(c1, accepted) == c1
      && CycleCalls(c1, accepted) == AddCalls(accepted)
  {
    var c1 := CacheAfter(cache, accepted);
    var names := Names(accepted);
    CacheAfterElems(cache, accepted);
    WithoutAll(c1, Elems(names));
    AppendedPresent(c1, names);
    WithoutAbsent(c1, Elems<string>([]));
    assert Elems<string>([]) == {};
  }

  // ---------------------------------------------------------------------------
  // A run of cycles

  /** The cache after one cycle over what the cycle sees. */
  function Cycle(groups: seq<Group>, hasApiManager: bool, cache: seq<string>, poll: Poll): seq<string> {
    match poll.listing
    case ListFailed => cache
    case Listed(items) => CacheAfter(cache, Accepted(groups, GateOf(hasApiManager, poll.registered), items))
  }

  /** The cache after one cycle per poll, in order. The API manager's
      registrations may differ from one cycle to the next. */
  function Run(groups: seq<Group>, hasApiManager: bool, cache: seq<string>, polls: seq<Poll>): seq<string> {
    if polls == [] then cache
    else Cycle(groups, hasApiManager, Run(groups, hasApiManager, cache, polls[..|polls| - 1]), polls[|polls| - 1])
  }

  /** Every cycle of a run keeps the cache free of duplicates. */
  lemma {:induction false} RunNoDup(groups: seq<Group>, hasApiManager: bool, cache: seq<string>, polls: seq<Poll>)
    requires NoDup(cache)
    ensures NoDup(Run(groups, hasApiManager, cache, polls))
  {
    if polls != [] {
      var before := Run(groups, hasApiManager, cache, polls[..|polls| - 1]);
      RunNoDup(groups, hasApiManager, cache, polls[..|polls| - 1]);
      var last := polls[|polls| - 1];
      if last.listing.Listed? {
        CacheAfterNoDup(before, Accepted(groups, GateOf(hasApiManager, last.registered), last.listing.items));
      }
    }
  }

  /** Convergence: after a run whose last list succeeded, the cache holds
      exactly the names that last cycle accepted, whatever came before. */
  lemma Convergence(groups: seq<Group>, hasApiManager: bool, cache: seq<string>, polls: seq<Poll>)
    requires polls != [] && polls[|polls| - 1].listing.Listed?
    ensures var last := polls[|polls| - 1];
      var accepted := Accepted(groups, GateOf(hasApiManager, last.registered), last.listing.items);
      forall p :: p in Run(groups, hasApiManager, cache, polls) <==> p in Names(accepted)
  {
    var before := Run(groups, hasApiManager, cache, polls[..|polls| - 1]);
    var last := polls[|polls| - 1];
    CacheAfterElems(before, Accepted(groups, GateOf(hasApiManager, last.registered), last.listing.items));
  }

  /** A failed list leaves the cache of a run unchanged. */
  lemma FailedListKeepsCache(groups: seq<Group>, hasApiManager: bool, cache: seq<string>, polls: seq<Poll>, registered: set<string>)
    ensures Run(groups, hasApiManager, cache, polls + [Poll(ListFailed, registered)]) == Run(groups, hasApiManager, cache, polls)
  {
    assert (polls + [Poll(ListFailed, registered)])[..|polls|] == polls;
  }

  // ---------------------------------------------------------------------------
  // The cache against the call log

  /** `p` has an add/update call in the log with no later removal for it. */
  predicate Live(log: seq<RuleUpdate>, p: string) {
    exists i :: 0 <= i < |log| && log[i].AddOrUpdate? && log[i].contextPath == p &&
      forall j :: i < j < |log| ==> log[j] != Removal(p)
  }

  /** The cache holds exactly the live paths of the log. */
  ghost predicate Tracks(log: seq<RuleUpdate>, cache: seq<string>) {
    forall p {:trigger Live(log, p)} :: p in cache <==> Live(log, p)
  }

  /** The empty cache tracks the empty log. */
  lemma TracksStart()
    ensures Tracks([], [])
  {
  }

  /** The add/update calls of a cycle are for accepted names only. */
  lemma AddCallsAreAccepted(cache: seq<string>, accepted: seq<Service>)
    ensures var calls := CycleCalls(cache, accepted);
      forall m :: 0 <= m < |calls| && calls[m].AddOrUpdate? ==> m < |accepted| && calls[m] == AddCall(accepted[m])
  {
    var calls, gone := CycleCalls(cache, accepted), Unconfirmed(cache, accepted);
    CycleCallsShape(cache, accepted);
    forall m | 0 <= m < |calls| ensures calls[m].AddOrUpdate? ==> m < |accepted| {
      if m >= |accepted| {
        assert calls[|accepted| + (m - |accepted|)] == Removal(gone[m - |accepted|]);
      }
    }
  }

  /** An add/update for `p` among new calls, with no removal of `p` after it,
      makes `p` live once those calls are appended to any log. */
  lemma LiveAppended(log: seq<RuleUpdate>, calls: seq<RuleUpdate>, p: string, k: nat)
    requires k < |calls| && calls[k].AddOrUpdate? && calls[k].contextPath == p
    requires forall m :: k < m < |calls| ==> calls[m] != Removal(p)
    ensures Live(log + calls, p)
  {
    var all := log + calls;
    assert all[|log| + k] == calls[k];
    forall j | |log| + k < j < |all| ensures all[j] != Removal(p) {
      assert all[j] == calls[j - |log|];
    }
  }

  /** An accepted name is live after the cycle: its add/update call is followed
      only by other adds and by removals of unconfirmed paths. */
  lemma LiveWhenAccepted(log: seq<RuleUpdate>, cache: seq<string>, accepted: seq<Service>, p: string)
    requires p in Names(accepted)
    ensures Live(log + CycleCalls(cache, accepted), p)
  {
    var calls, gone := CycleCalls(cache, accepted), Unconfirmed(cache, accepted);
    CycleCallsShape(cache, accepted);
    NamesShape(accepted);
    WithoutElems(cache, Elems(Names(accepted)));
    var k :| 0 <= k < |Names(accepted)| && Names(accepted)[k] == p;
    assert calls[k] == AddCall(accepted[k]);
    forall m | k < m < |calls| ensures calls[m] != Removal(p) {
      if m < |accepted| {
        assert calls[m] == AddCall(accepted[m]);
      } else {
        assert calls[|accepted| + (m - |accepted|)] == Removal(gone[m - |accepted|]);
        assert gone[m - |accepted|] in gone;
      }
    }
    LiveAppended(log, calls, p, k);
  }

  /** A name the cycle did not accept is not live after it: if its last add is
      in the old log it was cached, so the cycle removes it. */
  lemma NotLiveWhenDropped(log: seq<RuleUpdate>, cache: seq<string>, accepted: seq<Service>, p: string)
    requires NoDup(cache) && Tracks(log, cache)
    requires p !in Names(accepted)
    ensures !Live(log + CycleCalls(cache, accepted), p)
  {
    var calls, gone := CycleCalls(cache, accepted), Unconfirmed(cache, accepted);
    var all := log + calls;
    AddCallsAreAccepted(cache, accepted);
    NamesShape(accepted);
    forall i | |log| <= i < |all| && all[i].AddOrUpdate? ensures all[i].contextPath != p {
      assert all[i] == calls[i - |log|] == AddCall(accepted[i - |log|]);
      assert Names(accepted)[i - |log|] in Names(accepted);
    }
    forall i | 0 <= i < |log| && all[i].AddOrUpdate? && all[i].contextPath == p
      ensures exists j :: i < j < |all| && all[j] == Removal(p)
    {
      assert all[i] == log[i];
      if exists j :: i < j < |log| && log[j] == Removal(p) {
        var j :| i < j < |log| && log[j] == Removal(p);
        assert all[j] == log[j];
      } else {
        assert Live(log, p);
        RemovalsExact(cache, accepted);
        assert Removal(p) in calls;
        var m :| 0 <= m < |calls| && calls[m] == Removal(p);
        assert all[|log| + m] == Removal(p);
      }
    }
  }

  /** A cycle keeps the cache equal to the live paths of the call log. */
  lemma TracksAfterCycle(log: seq<RuleUpdate>, cache: seq<string>, accepted: seq<Service>)
    requires NoDup(cache) && Tracks(log, cache)
    ensures Tracks(log + CycleCalls(cache, accepted), CacheAfter(cache, accepted))
  {
    CacheAfterElems(cache, accepted);
    forall p ensures p in CacheAfter(cache, accepted) <==> Live(log + CycleCalls(cache, accepted), p) {
      if p in Names(accepted) {
        LiveWhenAccepted(log, cache, accepted, p);
      } else {
        NotLiveWhenDropped(log, cache, accepted, p);
      }
    }
  }

  // ---------------------------------------------------------------------------
  // Scenarios

  /** A first cycle accepting a single service: one add/update for it, and the
      cache holds its path. */
  lemma FirstCycleSingle(s: Service)
    ensures CycleCalls([], [s]) == [AddCall(s)]
    ensures CacheAfter([], [s]) == [s.name]
  {
    assert Names([s]) == [s.name] && AddCalls([s]) == [AddCall(s)] by {
      assert [] + [s] == [s];
      NamesSnoc([], s);
      AddCallsSnoc([], s);
    }
    assert Unconfirmed([], [s]) == [];
    assert Appended([], [s.name]) == [s.name] by {
      assert [s.name][..0] == [];
    }
    assert Without([s.name], Elems([])) == [s.name] by {
      WithoutAbsent([s.name], Elems([]));
    }
  }

  /** A matching service the API manager has no mapping for is not published,
      and nothing is cached. */
  lemma ScenarioNotYetMapped(groups: seq<Group>, s: Service)
    requires Matches(groups, s.selector)
    ensures Run(groups, true, [], [Poll(Listed([s]), {})]) == []
  {
    var first := Poll(Listed([s]), {});
    assert Accepted(groups, GateOf(true, first.registered), [s]) == [];
    assert Unconfirmed([], []) == [] && Appended<string>([], Names([])) == [];
    assert [first][..0] == [];
    WithoutAbsent<string>([], {});
  }

  /** The API manager is asked again on every cycle: a matching service it has
      no mapping for is not published, and once the mapping exists, the next
      cycle publishes it. */
  lemma ScenarioRegisteredLater(groups: seq<Group>, s: Service)
    requires Matches(groups, s.selector)
    ensures Run(groups, true, [], [Poll(Listed([s]), {})]) == []
    ensures Run(groups, true, [], [Poll(Listed([s]), {}), Poll(Listed([s]), {s.name})]) == [s.name]
  {
    var first, second := Poll(Listed([s]), {}), Poll(Listed([s]), {s.name});
    ScenarioNotYetMapped(groups, s);
    assert [first, second][..1] == [first];
    assert Run(groups, true, [], [first, second]) == Cycle(groups, true, [], second);
    assert Accepted(groups, GateOf(true, second.registered), [s]) == [s] by {
      assert [s][1..] == [];
    }
    FirstCycleSingle(s);
  }

  /** A service `svc1` labelled container foo, version v1, and a service `svc2`
      labelled container bar, against the single group container = foo and an
      empty cache: one add for `svc1` with parameters id, container and version,
      and nothing for `svc2`. */
  lemma ScenarioOneMatch()
    ensures var svc1 := Service("svc1", map["container" := "foo", "version" := "v1"], "http://host1");
      var svc2 := Service("svc2", map["container" := "bar"], "http://host2");
      var accepted := Accepted([map["container" := "foo"]], None, [svc1, svc2]);
      && accepted == [svc1]
      && CycleCalls([], accepted) == [AddCall(svc1)]
      && AddCall(svc1).params == map["id" := "svc1", "container" := "foo", "version" := "v1"]
      && CacheAfter([], accepted) == ["svc1"]
  {
    var svc1 := Service("svc1", map["container" := "foo", "version" := "v1"], "http://host1");
    var svc2 := Service("svc2", map["container" := "bar"], "http://host2");
    var groups := [map["container" := "foo"]];
    assert Accepted(groups, None, [svc1, svc2]) == [svc1] by {
      assert groups[1..] == [];
      assert Matches(groups, svc1.selector) by {
        assert GroupMatches(groups[0], svc1.selector);
      }
      assert !Matches(groups, svc2.selector) by {
        assert "bar"[0] != "foo"[0];
        assert svc2.selector["container"] != groups[0]["container"];
      }
      assert [svc1, svc2][1..] == [svc2] && [svc2][1..] == [];
      assert Accepted(groups, None, [svc2]) == [];
      assert Accepted(groups, None, [svc1, svc2]) == [svc1] + Accepted(groups, None, [svc2]);
    }
    FirstCycleSingle(svc1);
  }

  /** A cached path and a snapshot in which nothing matches: one removal for
      the path, and the cache ends empty. */
  lemma ScenarioRemoval(groups: seq<Group>, items: seq<Service>, p: string)
    requires forall k :: 0 <= k < |items| ==> !Matches(groups, items[k].selector)
    ensures var accepted := Accepted(groups, None, items);
      && CycleCalls([p], accepted) == [Removal(p)]
      && CacheAfter([p], accepted) == []
  {
    NoApiManagerAcceptsAllMatching(groups, items);
    NothingMatching(groups, items);
    assert Elems<string>([]) == {} && Elems([p]) == {p};
    assert [p][1..] == [] && [p][..0] == [];
    assert Accepted(groups, None, items) == [];
    assert Names([]) == [];
    assert Without([p], {}) == [p];
    assert Without([p], {p}) == [];
    assert RemovalCalls([p]) == [Removal(p)];
  }

  lemma {:induction false} NothingMatching(groups: seq<Group>, items: seq<Service>)
    requires forall k :: 0 <= k < |items| ==> !Matches(groups, items[k].selector)
    ensures Matching(groups, items) == []
  {
    if items != [] {
      assert !Matches(groups, items[0].selector);
      forall k | 0 <= k < |items[1..]| ensures !Matches(groups, items[1..][k].selector) {
        assert items[1..][k] == items[k + 1];
      }
      NothingMatching(groups, items[1..]);
    }
  }

  /** A service whose path is cached already is published again on the next cycle. */
  lemma ScenarioCachedIsUpdatedAgain(groups: seq<Group>, s: Service)
    requires Matches(groups, s.selector)
    ensures CycleCalls([s.name], Accepted(groups, None, [s])) == [AddCall(s)]
    ensures CacheAfter([s.name], Accepted(groups, None, [s])) == [s.name]
  {
    assert Accepted(groups, None, [s]) == [s] by {
      assert [s][1..] == [];
    }
    FirstCycleSingle(s);
    SecondCycleQuiet([], [s]);
  }

  /** The early stop with a gate registering `a` and `c` but not `b`, every
      service matching, and `a` and `c` cached from an earlier cycle: `a` is
      updated, the walk stops at `b`, and `c`, never reached, is removed as an
      unconfirmed path. */
  lemma ScenarioEarlyStop(a: Service, b: Service, c: Service)
    requires a.name != b.name && b.name != c.name && a.name != c.name
    ensures var accepted := Accepted([map[]], Some({a.name, c.name}), [a, b, c]);
      && accepted == [a]
      && CycleCalls([a.name, c.name], accepted) == [AddCall(a), Removal(c.name)]
      && CacheAfter([a.name, c.name], accepted) == [a.name]
  {
    var groups: seq<Group> := [map[]];
    assert Accepted(groups, Some({a.name, c.name}), [a, b, c]) == [a] by {
      assert GroupMatches(groups[0], a.selector) && GroupMatches(groups[0], b.selector);
      assert [a, b, c][1..] == [b, c];
    }
    ScenarioUnreached(a, c);
  }

  /** A cycle accepting only `a` while `a` and `c` are cached: `a` is updated
      and `c` is removed, leaving only `a` cached. */
  lemma ScenarioUnreached(a: Service, c: Service)
    requires a.name != c.name
    ensures CycleCalls([a.name, c.name], [a]) == [AddCall(a), Removal(c.name)]
    ensures CacheAfter([a.name, c.name], [a]) == [a.name]
  {
    var accepted := [a];
    assert Names(accepted) == [a.name] && AddCalls(accepted) == [AddCall(a)] by {
      assert [] + [a] == accepted;
      NamesSnoc([], a);
      AddCallsSnoc([], a);
    }
    assert Unconfirmed([a.name, c.name], accepted) == [c.name] by {
      assert Elems([a.name]) == {a.name};
      assert [a.name, c.name][1..] == [c.name] && [c.name][1..] == [];
      assert Without([c.name], {a.name}) == [c.name];
    }
    assert RemovalCalls([c.name]) == [Removal(c.name)] by {
      assert [c.name][..0] == [];
    }
    assert Appended([a.name, c.name], [a.name]) == [a.name, c.name] by {
      AppendedPresent([a.name, c.name], [a.name]);
    }
    assert Without([a.name, c.name], Elems([c.name])) == [a.name] by {
      assert Elems([c.name]) == {c.name};
      assert [a.name, c.name][1..] == [c.name] && [c.name][1..] == [];
      assert Without([c.name], {c.name}) == [];
    }
  }
}
