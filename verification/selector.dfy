/** What it means for a Kubernetes service's selector to satisfy the gateway's
    configured selector groups: an OR over the groups of an AND over each group's keys. */
module Selector {

  /** One configured selector group: label key to required value. */
  type Group = map<string, string>

  /** Every key of `group` is present in `labels` with an equal value. */
  predicate GroupMatches(group: Group, labels: map<string, string>) {
    forall key :: key in group ==> key in labels && labels[key] == group[key]
  }

  /** The groups are tried in order and the first satisfied one decides. */
  predicate Matches(groups: seq<Group>, labels: map<string, string>) {
    groups != [] && (GroupMatches(groups[0], labels) || Matches(groups[1..], labels))
  }

  /** `labels` match exactly when at least one configured group is satisfied. */
  lemma {:induction false} MatchesIffSomeGroup(groups: seq<Group>, labels: map<string, string>)
    ensures Matches(groups, labels) <==> exists i :: 0 <= i < |groups| && GroupMatches(groups[i], labels)
  {
    if groups != [] {
      MatchesIffSomeGroup(groups[1..], labels);
      if exists i :: 0 <= i < |groups| && GroupMatches(groups[i], labels) {
        var i :| 0 <= i < |groups| && GroupMatches(groups[i], labels);
        if i > 0 {
          assert groups[1..][i - 1] == groups[i];
        }
      }
      if exists i :: 0 <= i < |groups[1..]| && GroupMatches(groups[1..][i], labels) {
        var i :| 0 <= i < |groups[1..]| && GroupMatches(groups[1..][i], labels);
        assert groups[i + 1] == groups[1..][i];
      }
    }
  }

  /** With no groups configured nothing matches. */
  lemma NoGroupsMatchNothing(labels: map<string, string>)
    ensures !Matches([], labels)
  {
  }

  /** A group without keys matches every selector. */
  lemma EmptyGroupMatchesAll(groups: seq<Group>, labels: map<string, string>)
    requires map[] in groups
    ensures Matches(groups, labels)
  {
    var i :| 0 <= i < |groups| && groups[i] == map[];
    assert GroupMatches(groups[i], labels);
    MatchesIffSomeGroup(groups, labels);
  }

  /** The order in which the groups are configured does not matter. */
  lemma MatchesPermutation(g1: seq<Group>, g2: seq<Group>, labels: map<string, string>)
    requires multiset(g1) == multiset(g2)
    ensures Matches(g1, labels) <==> Matches(g2, labels)
  {
    MatchesIffSomeGroup(g1, labels);
    MatchesIffSomeGroup(g2, labels);
    if Matches(g1, labels) {
      SomeGroupTransfers(g1, g2, labels);
    }
    if Matches(g2, labels) {
      SomeGroupTransfers(g2, g1, labels);
    }
  }

  lemma SomeGroupTransfers(g1: seq<Group>, g2: seq<Group>, labels: map<string, string>)
    requires multiset(g1) == multiset(g2)
    requires exists i :: 0 <= i < |g1| && GroupMatches(g1[i], labels)
    ensures exists j :: 0 <= j < |g2| && GroupMatches(g2[j], labels)
  {
    var i :| 0 <= i < |g1| && GroupMatches(g1[i], labels);
    assert g1[i] in multiset(g1);
    assert g1[i] in g2;
    var j :| 0 <= j < |g2| && g2[j] == g1[i];
    assert GroupMatches(g2[j], labels);
  }
}
