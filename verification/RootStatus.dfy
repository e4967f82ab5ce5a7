/**
The status of a root policy, computed from its decision set and placement list: remaining bindings
(controllers/common/common.go), the status per cluster and the compliance of the root policy
(controllers/common/common_status_update.go); and how they agree with the per-cluster decision of the
replicated policy controller.
*/
module RootStatus {
  import opened Basics
  import opened Ordering
  import opened PolicySets
  import opened Placement
  import opened DecisionSets
  import opened PlacementOrder

  /******* The decision set against the per-cluster decision *******/

  /** The decision-set entry of the cluster holds an unrestricted binding that reaches the policy there. */
  ghost predicate HasReachingBinding(hub: Hub, policy: string, d: DecisionSet, c: string)
  {
    exists b :: b in hub.bindings && b.name in At(d, c) && !IsRestricted(b) && ReachesPolicy(hub, b, policy, c)
  }

  lemma ReachIsBinding(hub: Hub, b: Binding, policy: string, c: string)
    requires ReachesPolicy(hub, b, policy, c)
    ensures Binds(hub, b, policy)
  {
    var s :| s in b.subjects && ReachesBy(hub, s, policy, c);
    assert BindsBy(hub, s, policy);
  }

  /** With unique names, a name in the decision set stands for one binding. */
  lemma NameInDecisionSet(hub: Hub, policy: string, disabled: bool, d: DecisionSet, b: Binding, c: string)
    requires UniqueNames(hub.bindings) && IsDecisionSet(hub, policy, disabled, d) && b in hub.bindings
    ensures b.name in At(d, c) <==> !disabled && ListsCluster(hub, b, policy, c)
  {
    assert b.name in At(d, c) <==> ListedBy(hub, policy, disabled, c, b.name);
    if ListedBy(hub, policy, disabled, c, b.name) {
      var o :| o in hub.bindings && o.name == b.name && ListsCluster(hub, o, policy, c);
      SameBinding(hub.bindings, o, b);
    }
  }

  /** The two forms of placement agree: the per-cluster decision is positive exactly where the decision
      set holds an unrestricted binding that reaches the policy; such clusters are keys of the set. */
  lemma PlacedExactly(hub: Hub, policy: string, d: DecisionSet, c: string, v: Verdict)
    requires UniqueNames(hub.bindings) && IsDecisionSet(hub, policy, false, d)
    requires c != "" && IsVerdict(hub, policy, c, v)
    ensures v.cluster != "" <==> HasReachingBinding(hub, policy, d, c)
    ensures v.cluster != "" ==> c in d
  {
    forall b | b in hub.bindings && ReachesPolicy(hub, b, policy, c)
      ensures b.name in At(d, c) <==> Reaches(hub, b, policy, c)
    {
      ReachIsBinding(hub, b, policy, c);
      NameInDecisionSet(hub, policy, false, d, b, c);
    }
  }

  ghost predicate NoExclusion(hub: Hub, policy: string)
  {
    forall n :: n in hub.policySets ==> ExcludedClusters(Some(hub.policySets[n]), policy) == []
  }

  /** Without restrictions and exclusions the keys are exactly the clusters the policy is placed on. */
  lemma PlacedIsKeys(hub: Hub, policy: string, d: DecisionSet, c: string, v: Verdict)
    requires UniqueNames(hub.bindings) && IsDecisionSet(hub, policy, false, d)
    requires c != "" && IsVerdict(hub, policy, c, v)
    requires NoExclusion(hub, policy) && forall b :: b in hub.bindings ==> !IsRestricted(b)
    ensures v.cluster != "" <==> c in d
  {
    PlacedExactly(hub, policy, d, c, v);
    if c in d {
      assert d[c][0] in At(d, c);
      assert ListedBy(hub, policy, false, c, d[c][0]);
      var b :| b in hub.bindings && b.name == d[c][0] && ListsCluster(hub, b, policy, c);
      var s :| s in b.subjects && BindsBy(hub, s, policy);
      assert ReachesBy(hub, s, policy, c);
    }
  }

  /******* Remaining bindings *******/

  /** Some placement says that a PolicySet bound by the binding excludes the cluster. */
  ghost predicate ExcludedVia(placements: seq<Entry>, c: string, n: string)
  {
    exists e :: e in placements && e.policySet != "" && e.binding == n && c in e.exclusions
  }

  function Without(names: seq<string>, gone: seq<string>): seq<string>
  {
    if names == [] then []
    else (if names[0] in gone then [] else [names[0]]) + Without(names[1..], gone)
  }

  lemma {:induction false} WithoutMeaning(names: seq<string>, gone: seq<string>)
    ensures forall n :: n in Without(names, gone) <==> n in names && n !in gone
    ensures StrictlySorted(names) ==> StrictlySorted(Without(names, gone))
  {
    if names != [] {
      assert names == [names[0]] + names[1..];
      WithoutMeaning(names[1..], gone);
      var r := Without(names[1..], gone);
      if StrictlySorted(names) {
        forall j | 0 <= j < |r|
          ensures Less(names[0], r[j])
        {
          assert r[j] in names[1..];
        }
      }
    }
  }

  ghost predicate SomeExcluded(placements: seq<Entry>, c: string)
  {
    exists n :: ExcludedVia(placements, c, n)
  }

  /** Which bindings are reported as remaining for each cluster. */
  ghost predicate IsReport(disabled: bool, placements: seq<Entry>, decisions: DecisionSet, r: DecisionSet)
  {
    && (forall c :: c in r ==> r[c] != [] && SortedBy(r[c], Itself))
    && (forall c :: StrictlySorted(At(decisions, c)) ==> StrictlySorted(At(r, c)))
    && (forall c, n :: n in At(r, c) <==>
          && !disabled
          && n in At(decisions, c)
          && !ExcludedVia(placements, c, n)
          && SomeExcluded(placements, c))
  }

  /** The loop that fills excludedByCluster. */
  method ExcludedByCluster(placements: seq<Entry>) returns (excluded: map<string, seq<string>>)
    ensures forall c, n :: n in At(excluded, c) <==> ExcludedVia(placements, c, n)
  {
    excluded := map[];
    for i := 0 to |placements|
      invariant forall c, n :: n in At(excluded, c) <==> ExcludedVia(placements[..i], c, n)
    {
      var e := placements[i];
      ghost var before := excluded;
      assert placements[..i + 1] == placements[..i] + [e];
      ExcludedViaSnoc(placements[..i], e);
      if e.policySet != "" {
        for k := 0 to |e.exclusions|
          invariant forall c, n :: n in At(excluded, c) <==>
                      n in At(before, c) || (n == e.binding && c in e.exclusions[..k])
        {
          var c := e.exclusions[k];
          excluded := excluded[c := At(excluded, c) + [e.binding]];
        }
        assert e.exclusions[..|e.exclusions|] == e.exclusions;
      }
    }
    assert placements[..|placements|] == placements;
  }

  lemma ExcludedViaSnoc(placements: seq<Entry>, e: Entry)
    ensures forall c, n :: ExcludedVia(placements + [e], c, n) <==>
              ExcludedVia(placements, c, n) || (e.policySet != "" && e.binding == n && c in e.exclusions)
  {
    assert forall x :: x in placements + [e] <==> x in placements || x == e;
  }

  /** The remaining bindings of one cluster, given the names of the bindings that exclude it. */
  function Remaining(names: seq<string>, excluding: seq<string>): seq<string>
  {
    if excluding == [] then [] else Sort(Without(names, excluding), Itself)
  }

  lemma RemainingMeaning(names: seq<string>, excluding: seq<string>)
    ensures SortedBy(Remaining(names, excluding), Itself)
    ensures StrictlySorted(names) ==> StrictlySorted(Remaining(names, excluding))
    ensures forall n :: n in Remaining(names, excluding) <==> n in names && n !in excluding && excluding != []
  {
    var kept := Without(names, excluding);
    WithoutMeaning(names, excluding);
    assert forall n :: n in Sort(kept, Itself) <==> n in multiset(Sort(kept, Itself));
    if StrictlySorted(names) {
      StrictIsSorted(kept);
      SortDistinct(kept);
    }
  }

  /** computeRemainingBindings */
  method ComputeRemainingBindings(disabled: bool, placements: seq<Entry>, decisions: DecisionSet)
    returns (r: DecisionSet)
    ensures IsReport(disabled, placements, decisions, r)
  {
    r := map[];
    if disabled {
      return;
    }
    var excluded := ExcludedByCluster(placements);
    var left := decisions.Keys;
    while left != {}
      invariant left <= decisions.Keys
      invariant forall c :: c in r ==> c in decisions.Keys - left && r[c] != []
      invariant forall c :: c in decisions.Keys - left ==> At(r, c) == Remaining(decisions[c], At(excluded, c))
    {
      var c :| c in left;
      var excluding := At(excluded, c);
      if excluding != [] {
        var remaining := Without(decisions[c], excluding);
        if remaining != [] {
          r := r[c := Sort(remaining, Itself)];
          assert multiset(r[c]) == multiset(remaining);
        }
      }
      left := left - {c};
    }
    Reported(placements, decisions, excluded, r);
  }

  lemma Reported(placements: seq<Entry>, decisions: DecisionSet, excluded: map<string, seq<string>>, r: DecisionSet)
    requires forall c, n :: n in At(excluded, c) <==> ExcludedVia(placements, c, n)
    requires forall c :: c in r ==> c in decisions && r[c] != []
    requires forall c :: c in decisions ==> At(r, c) == Remaining(decisions[c], At(excluded, c))
    ensures IsReport(false, placements, decisions, r)
  {
    forall c
      ensures SortedBy(At(r, c), Itself) && (StrictlySorted(At(decisions, c)) ==> StrictlySorted(At(r, c)))
    {
      if c in decisions {
        RemainingMeaning(decisions[c], At(excluded, c));
      }
    }
    forall c, n
      ensures n in At(r, c) <==>
              n in At(decisions, c) && !ExcludedVia(placements, c, n) && SomeExcluded(placements, c)
    {
      if c in decisions {
        RemainingMeaning(decisions[c], At(excluded, c));
        if At(excluded, c) != [] {
          assert At(excluded, c)[0] in At(excluded, c);
        }
      }
    }
  }

  /******* What is reported *******/

  /** Some PolicySet that the binding names and that lists the policy excludes the cluster. */
  ghost predicate SetExcludes(hub: Hub, b: Binding, policy: string, c: string)
  {
    exists s :: s in b.subjects && SetSubject(hub, s, policy) && c in ExcludedClusters(SetOf(hub, s.name), policy)
  }

  /** The placement list holds the binding's entries. */
  ghost predicate Shown(hub: Hub, policy: string, disabled: bool, b: Binding)
  {
    forall e :: e in Entries(hub, b, policy) ==> e in Placements(hub, policy, disabled)
  }

  lemma UnrestrictedIsShown(hub: Hub, policy: string, disabled: bool, b: Binding)
    requires b in hub.bindings && !IsRestricted(b)
    ensures Shown(hub, policy, disabled, b)
  {
    forall e | e in Entries(hub, b, policy)
      ensures e in Placements(hub, policy, disabled)
    {
      UnrestrictedHas(hub, policy, hub.bindings, e, b);
      assert e in multiset(Placements(hub, policy, disabled));
    }
  }

  lemma ShownExclusion(hub: Hub, policy: string, disabled: bool, b: Binding, c: string)
    requires WellNamed(hub) && b in hub.bindings && ValidRef(b) && Shown(hub, policy, disabled, b)
    ensures SetExcludes(hub, b, policy, c) ==> ExcludedVia(Placements(hub, policy, disabled), c, b.name)
  {
    if SetExcludes(hub, b, policy, c) {
      var s :| s in b.subjects && SetSubject(hub, s, policy) && c in ExcludedClusters(SetOf(hub, s.name), policy);
      var e := Fill(hub, b, SetEntry(hub, b, s.name, policy));
      assert NamesSet(hub, b.subjects, policy, s.name);
      EntriesMeaning(hub, b, policy, e);
      assert e in Placements(hub, policy, disabled) && e.policySet != "" && e.binding == b.name;
    }
  }

  lemma ExclusionIsReal(hub: Hub, policy: string, disabled: bool, b: Binding, c: string)
    requires WellNamed(hub) && b in hub.bindings && ExcludedVia(Placements(hub, policy, disabled), c, b.name)
    ensures SetExcludes(hub, b, policy, c)
  {
    var e :| e in Placements(hub, policy, disabled) && e.policySet != "" && e.binding == b.name && c in e.exclusions;
    var o := PlacementsOrigin(hub, policy, disabled, e);
    EntryOrigin(hub, o, policy, e);
    SameBinding(hub.bindings, o, b);
    EntriesMeaning(hub, b, policy, e);
    var s :| s in b.subjects && SetSubject(hub, s, policy) && s.name == e.policySet;
  }

  /** A binding whose entries are in the placement list is reported for a cluster exactly when it lists
      the cluster, none of its PolicySets excludes it, and some placement does. */
  lemma RemainingExactly(hub: Hub, policy: string, disabled: bool, d: DecisionSet, r: DecisionSet, b: Binding,
                         c: string)
    requires WellNamed(hub) && IsDecisionSet(hub, policy, disabled, d)
    requires IsReport(disabled, Placements(hub, policy, disabled), d, r)
    requires b in hub.bindings && Shown(hub, policy, disabled, b)
    ensures b.name in At(r, c) <==>
            && !disabled
            && ListsCluster(hub, b, policy, c)
            && !SetExcludes(hub, b, policy, c)
            && SomeExcluded(Placements(hub, policy, disabled), c)
  {
    NameInDecisionSet(hub, policy, disabled, d, b, c);
    if ListsCluster(hub, b, policy, c) {
      ShownExclusion(hub, policy, disabled, b, c);
    }
    if ExcludedVia(Placements(hub, policy, disabled), c, b.name) {
      ExclusionIsReal(hub, policy, disabled, b, c);
    }
  }

  lemma UnexcludedReaches(hub: Hub, b: Binding, policy: string, c: string)
    requires ListsCluster(hub, b, policy, c) && !SetExcludes(hub, b, policy, c)
    ensures Reaches(hub, b, policy, c)
  {
    var s :| s in b.subjects && BindsBy(hub, s, policy);
    assert ReachesBy(hub, s, policy, c);
  }

  /** Every unrestricted binding that is reported for a cluster still places the policy there. */
  lemma RemainingIsPlaced(hub: Hub, policy: string, disabled: bool, d: DecisionSet, r: DecisionSet, b: Binding,
                          c: string)
    requires WellNamed(hub) && IsDecisionSet(hub, policy, disabled, d)
    requires IsReport(disabled, Placements(hub, policy, disabled), d, r)
    requires b in hub.bindings && !IsRestricted(b) && b.name in At(r, c)
    ensures Reaches(hub, b, policy, c) && Placed(hub, policy, c)
  {
    UnrestrictedIsShown(hub, policy, disabled, b);
    RemainingExactly(hub, policy, disabled, d, r, b, c);
    UnexcludedReaches(hub, b, policy, c);
  }

  /******* Status per cluster *******/

  datatype Status = Status(cluster: string, remaining: seq<string>, compliance: string)

  function ClusterOf(s: Status): string
  {
    s.cluster
  }

  /** The lookup of a replica gave its compliance, or failed. */
  datatype Lookup = Answered(compliance: string) | Failed

  /** The lookups in the cluster namespaces; a cluster that is missing has no replica. */
  type Replicas = map<string, Lookup>

  /** The compliance of the replica in the cluster's namespace, empty if there is none or the lookup failed. */
  function ReplicaCompliance(replicas: Replicas, c: string): string
  {
    if c in replicas && replicas[c].Answered? then replicas[c].compliance else ""
  }

  ghost predicate SomeFailed(replicas: Replicas, d: DecisionSet)
  {
    exists c :: c in d && c in replicas && replicas[c].Failed?
  }

  function StatusOf(report: DecisionSet, replicas: Replicas, c: string): Status
  {
    Status(c, At(report, c), ReplicaCompliance(replicas, c))
  }

  /** One status per key of the decision set, sorted by cluster name. */
  ghost predicate ListsStatuses(d: DecisionSet, report: DecisionSet, replicas: Replicas, list: seq<Status>)
  {
    && (forall i, j :: 0 <= i < j < |list| ==> Less(list[i].cluster, list[j].cluster))
    && (forall s :: s in list <==> s.cluster in d && s == StatusOf(report, replicas, s.cluster))
  }

  ghost predicate IsStatusList(disabled: bool, placements: seq<Entry>, d: DecisionSet, replicas: Replicas,
                               list: seq<Status>)
  {
    if disabled then list == []
    else exists report :: IsReport(disabled, placements, d, report) && ListsStatuses(d, report, replicas, list)
  }

  lemma SameCluster(list: seq<Status>, x: Status, y: Status)
    requires forall i, j :: 0 <= i < j < |list| ==> list[i].cluster != list[j].cluster
    requires x in list && y in list && x.cluster == y.cluster
    ensures x == y
  {
    var i :| 0 <= i < |list| && list[i] == x;
    var j :| 0 <= j < |list| && list[j] == y;
    assert !(i < j) && !(j < i);
  }

  lemma SortByCluster(list: seq<Status>)
    requires forall i, j :: 0 <= i < j < |list| ==> list[i].cluster != list[j].cluster
    ensures var r := Sort(list, ClusterOf);
            && (forall i, j :: 0 <= i < j < |r| ==> Less(r[i].cluster, r[j].cluster))
            && (forall s :: s in r <==> s in list)
  {
    var r := Sort(list, ClusterOf);
    assert forall s :: s in r <==> s in multiset(r);
    forall i, j | 0 <= i < j < |r|
      ensures Less(r[i].cluster, r[j].cluster)
    {
      SortedApart(list, r, i, j);
    }
  }

  lemma SortedApart(list: seq<Status>, r: seq<Status>, i: nat, j: nat)
    requires forall i, j :: 0 <= i < j < |list| ==> list[i].cluster != list[j].cluster
    requires SortedBy(r, ClusterOf) && multiset(r) == multiset(list) && i < j < |r|
    ensures Less(r[i].cluster, r[j].cluster)
  {
    assert Leq(ClusterOf(r[i]), ClusterOf(r[j]));
    LessTotal(r[i].cluster, r[j].cluster);
    if r[i].cluster == r[j].cluster {
      assert r[i] in multiset(list) && r[j] in multiset(list);
      SameCluster(list, r[i], r[j]);
      DistinctOnce(list, r[i]);
      TwiceCounted(r, i, j);
    }
  }

  /** CalculatePerClusterStatus; an error is returned beside the list when some lookup failed. */
  method CalculatePerClusterStatus(disabled: bool, placements: seq<Entry>, d: DecisionSet, replicas: Replicas)
    returns (list: seq<Status>, failed: bool)
    ensures IsStatusList(disabled, placements, d, replicas, list)
    ensures failed <==> !disabled && SomeFailed(replicas, d)
  {
    list, failed := [], false;
    if disabled {
      return;
    }
    var report := ComputeRemainingBindings(disabled, placements, d);
    var left := d.Keys;
    while left != {}
      invariant left <= d.Keys
      invariant forall i, j :: 0 <= i < j < |list| ==> list[i].cluster != list[j].cluster
      invariant forall s :: s in list <==> s.cluster in d.Keys - left && s == StatusOf(report, replicas, s.cluster)
      invariant failed <==> exists c :: c in d.Keys - left && c in replicas && replicas[c].Failed?
    {
      var c :| c in left;
      var status := Status(c, [], "");
      if c in report {
        status := status.(remaining := report[c]);
      }
      if c in replicas {
        match replicas[c]
        case Answered(compliance) => status := status.(compliance := compliance);
        case Failed => failed := true;
      }
      assert forall i :: 0 <= i < |list| ==> list[i] in list;
      list := list + [status];
      left := left - {c};
    }
    SortByCluster(list);
    list := Sort(list, ClusterOf);
    assert ListsStatuses(d, report, replicas, list);
  }

  /******* Compliance of the root policy *******/

  const NON_COMPLIANT: string := "NonCompliant"
  const PENDING: string := "Pending"
  const COMPLIANT: string := "Compliant"

  function Severity(compliance: string): nat
  {
    if compliance == NON_COMPLIANT then 3
    else if compliance == PENDING then 2
    else if compliance == COMPLIANT then 0
    else 1
  }

  /** The most severe state of any cluster; every state that is not known is written as empty. */
  ghost predicate IsRootCompliance(list: seq<Status>, r: string)
  {
    && r in {NON_COMPLIANT, PENDING, COMPLIANT, ""}
    && (list == [] ==> r == "")
    && (list != [] ==> exists s :: s in list && Severity(s.compliance) == Severity(r))
    && (forall s :: s in list ==> Severity(s.compliance) <= Severity(r))
  }

  method CalculateRootCompliance(list: seq<Status>) returns (r: string)
    ensures IsRootCompliance(list, r)
  {
    if list == [] {
      return "";
    }
    var unknownFound, pendingFound := false, false;
    for i := 0 to |list|
      invariant forall s :: s in list[..i] ==> s.compliance != NON_COMPLIANT
      invariant pendingFound <==> exists s :: s in list[..i] && Severity(s.compliance) == 2
      invariant unknownFound <==> exists s :: s in list[..i] && Severity(s.compliance) == 1
    {
      var state := list[i].compliance;
      assert list[..i + 1] == list[..i] + [list[i]];
      assert list[i] in list;
      if state == NON_COMPLIANT {
        return NON_COMPLIANT;
      } else if state == PENDING {
        pendingFound := true;
      } else if state != COMPLIANT {
        unknownFound := true;
      }
    }
    assert list[..|list|] == list;
    assert list[0] in list;
    r := if pendingFound then PENDING else if unknownFound then "" else COMPLIANT;
  }

  /** NonCompliant if any cluster is; else Pending if any is; else empty if any is neither, or there is no
      cluster; else Compliant. */
  lemma RootComplianceExactly(list: seq<Status>, r: string)
    requires IsRootCompliance(list, r)
    ensures r == if exists s :: s in list && s.compliance == "NonCompliant" then "NonCompliant"
                 else if exists s :: s in list && s.compliance == "Pending" then "Pending"
                 else if list == [] || exists s :: s in list && s.compliance != "Compliant" then ""
                 else "Compliant"
  {
    if list != [] {
      var worst :| worst in list && Severity(worst.compliance) == Severity(r);
      assert list[0] in list;
    }
  }

  /** What the status of a cluster says: the compliance its replica reports, if it could be looked up, and the
      bindings of its decision-set entry that no placement excludes there, if some placement excludes it. */
  lemma StatusFields(disabled: bool, placements: seq<Entry>, d: DecisionSet, replicas: Replicas, list: seq<Status>,
                     s: Status)
    requires IsStatusList(disabled, placements, d, replicas, list) && s in list
    ensures !disabled && s.cluster in d
    ensures s.compliance ==
            if s.cluster in replicas && replicas[s.cluster].Answered? then replicas[s.cluster].compliance else ""
    ensures forall n :: n in s.remaining <==>
              n in d[s.cluster] && !ExcludedVia(placements, s.cluster, n) && SomeExcluded(placements, s.cluster)
  {
    var report :| IsReport(disabled, placements, d, report) && ListsStatuses(d, report, replicas, list);
    forall n
      ensures n in s.remaining <==>
              n in d[s.cluster] && !ExcludedVia(placements, s.cluster, n) && SomeExcluded(placements, s.cluster)
    {
      ReportAt(placements, d, report, s.cluster, n);
    }
  }

  /******* Order of the bindings *******/

  /** Two lists for the same set of clusters agree on clusters and compliance. */
  lemma ListsAgree(d: DecisionSet, report: DecisionSet, report': DecisionSet, replicas: Replicas, list: seq<Status>,
                   list': seq<Status>)
    requires ListsStatuses(d, report, replicas, list) && ListsStatuses(d, report', replicas, list')
    ensures |list| == |list'|
    ensures forall i :: 0 <= i < |list| ==>
              list[i].cluster == list'[i].cluster && list[i].compliance == list'[i].compliance
    ensures report == report' ==> list == list'
  {
    var a := seq(|list|, i requires 0 <= i < |list| => list[i].cluster);
    var b := seq(|list'|, i requires 0 <= i < |list'| => list'[i].cluster);
    forall c
      ensures c in a <==> c in d
      ensures c in b <==> c in d
    {
      ListClusters(d, report, replicas, list, a, c);
      ListClusters(d, report', replicas, list', b, c);
    }
    StrictUnique(a, b);
    forall i | 0 <= i < |list|
      ensures list[i].cluster == list'[i].cluster && list[i].compliance == list'[i].compliance
      ensures report == report' ==> list[i] == list'[i]
    {
      assert a[i] == b[i];
      assert list[i] in list && list'[i] in list';
    }
  }

  lemma ListClusters(d: DecisionSet, report: DecisionSet, replicas: Replicas, list: seq<Status>, a: seq<string>,
                     c: string)
    requires ListsStatuses(d, report, replicas, list)
    requires |a| == |list| && forall i :: 0 <= i < |list| ==> a[i] == list[i].cluster
    ensures c in a <==> c in d
  {
    if c in d {
      var s := StatusOf(report, replicas, c);
      assert s in list;
      var i :| 0 <= i < |list| && list[i] == s;
      assert a[i] == c;
    }
    if c in a {
      var i :| 0 <= i < |a| && a[i] == c;
      assert list[i] in list;
    }
  }

  lemma ReportUnique(disabled: bool, placements: seq<Entry>, d: DecisionSet, r: DecisionSet, r': DecisionSet)
    requires forall c :: c in d ==> StrictlySorted(d[c])
    requires IsReport(disabled, placements, d, r) && IsReport(disabled, placements, d, r')
    ensures r == r'
  {
    forall c
      ensures At(r, c) == At(r', c)
    {
      StrictUnique(At(r, c), At(r', c));
    }
    assert forall c :: c in r <==> At(r, c) != [];
    assert forall c :: c in r' <==> At(r', c) != [];
  }

  /** The compliance of the root policy is a function of the compliance states. */
  lemma ComplianceUnique(list: seq<Status>, list': seq<Status>, r: string, r': string)
    requires |list| == |list'| && forall i :: 0 <= i < |list| ==> list[i].compliance == list'[i].compliance
    requires IsRootCompliance(list, r) && IsRootCompliance(list', r')
    ensures r == r'
  {
    if list != [] {
      var s :| s in list && Severity(s.compliance) == Severity(r);
      var t :| t in list' && Severity(t.compliance) == Severity(r');
      var i :| 0 <= i < |list| && list[i] == s;
      var j :| 0 <= j < |list'| && list'[j] == t;
      assert list'[i] in list' && list[j] in list;
    }
  }

  /** The clusters and compliance states in the status, and the compliance of the root policy, do not
      depend on the order of the bindings; nor do the remaining bindings, if the placement list does not. */
  lemma StatusIgnoresOrder(hub: Hub, other: Hub, policy: string, disabled: bool, d: DecisionSet, e: DecisionSet,
                           replicas: Replicas, list: seq<Status>, list': seq<Status>, r: string, r': string)
    requires WellNamed(hub) && Reordered(hub, other)
    requires IsDecisionSet(hub, policy, disabled, d) && IsDecisionSet(other, policy, disabled, e)
    requires IsStatusList(disabled, Placements(hub, policy, disabled), d, replicas, list)
    requires IsStatusList(disabled, Placements(other, policy, disabled), e, replicas, list')
    requires IsRootCompliance(list, r) && IsRootCompliance(list', r')
    ensures |list| == |list'| && r == r'
    ensures forall i :: 0 <= i < |list| ==>
              list[i].cluster == list'[i].cluster && list[i].compliance == list'[i].compliance
    ensures Settled(hub, policy, disabled) ==> list == list'
  {
    DecisionSetIgnoresOrder(hub, other, policy, disabled, d, e);
    if !disabled {
      var p, q := Placements(hub, policy, disabled), Placements(other, policy, disabled);
      var a :| IsReport(disabled, p, d, a) && ListsStatuses(d, a, replicas, list);
      var b :| IsReport(disabled, q, d, b) && ListsStatuses(d, b, replicas, list');
      ListsAgree(d, a, b, replicas, list, list');
      if Settled(hub, policy, disabled) {
        SettledIgnoresOrder(hub, other, policy, disabled);
        ReportUnique(disabled, p, d, a, b);
      }
    }
    ComplianceUnique(list, list', r, r');
  }

  /******* Remaining bindings that depend on the order *******/

  const DIRECT: Binding :=
    Binding("r1", Ref(RULE_GROUP, "PlacementRule", "rule"), [Subject(POLICY_GROUP, POLICY_KIND, "p")], "", RESTRICTED)

  const THROUGH_SET: Binding :=
    Binding("r2", Ref(RULE_GROUP, "PlacementRule", "rule"), [Subject(POLICY_GROUP, POLICY_SET_KIND, "set")], "",
            RESTRICTED)

  /** Two restricted bindings of policy p with the cluster c; the PolicySet of the second excludes it. */
  function TwoRestricted(bs: seq<Binding>): Hub
  {
    Hub(bs, map["set" := PolicySet(["p"], [Exclusion("p", "", ["c"])])], map["rule" := ["c"]], {}, [])
  }

  lemma TwoRestrictedLists(hub: Hub)
    requires hub == TwoRestricted(hub.bindings)
    ensures ListsCluster(hub, DIRECT, "p", "c") && ListsCluster(hub, THROUGH_SET, "p", "c")
  {
    assert DIRECT.subjects[0] in DIRECT.subjects && BindsBy(hub, DIRECT.subjects[0], "p");
    assert "p" in hub.policySets["set"].policies;
    assert THROUGH_SET.subjects[0] in THROUGH_SET.subjects && BindsBy(hub, THROUGH_SET.subjects[0], "p");
  }

  lemma TwoRestrictedExcludes(hub: Hub)
    requires hub == TwoRestricted(hub.bindings)
    ensures !SetExcludes(hub, DIRECT, "p", "c") && SetExcludes(hub, THROUGH_SET, "p", "c")
  {
    var policySet := hub.policySets["set"];
    assert policySet.exclusions[0].policyName == "p" && "c" in policySet.exclusions[0].clusterNames;
    ExcludedClustersMeaning(Some(policySet), "p");
    assert "p" in policySet.policies;
    assert THROUGH_SET.subjects[0] in THROUGH_SET.subjects && SetSubject(hub, THROUGH_SET.subjects[0], "p");
  }

  lemma TwoRestrictedNames(hub: Hub)
    requires hub == TwoRestricted(hub.bindings)
    requires hub.bindings == [DIRECT, THROUGH_SET] || hub.bindings == [THROUGH_SET, DIRECT]
    ensures WellNamed(hub)
    ensures !Found(Clusters(hub, THROUGH_SET, "p", false), Base(hub, "p", false))
  {
    assert forall b :: b in hub.bindings ==> b == DIRECT || b == THROUGH_SET;
    assert Base(hub, "p", false) == {};
    assert |Decisions(hub, THROUGH_SET)| == 1;
  }

  /** A restricted binding that is put last and shares a cluster with an earlier one has its exclusions shown. */
  lemma RivalLast(hub: Hub, policy: string, a: Binding, b: Binding, c: string)
    requires WellNamed(hub) && hub.bindings == [a, b] && IsRestricted(a) && IsRestricted(b)
    requires ListsCluster(hub, a, policy, c) && ListsCluster(hub, b, policy, c)
    requires SetExcludes(hub, b, policy, c)
    ensures SomeExcluded(Placements(hub, policy, false), c)
  {
    assert hub.bindings[..1] == [a];
    ClustersMeaning(hub, a, policy, false, c);
    ClustersMeaning(hub, b, policy, false, c);
    forall e | e in Entries(hub, b, policy)
      ensures e in Placements(hub, policy, false)
    {
      LastIsListed(hub, policy, false, a, c, e);
    }
    ShownExclusion(hub, policy, false, b, c);
  }

  /** Put first, it is not listed, and if no other binding excludes the cluster nothing is reported. */
  lemma RivalFirst(hub: Hub, policy: string, c: string)
    requires WellNamed(hub) && hub.bindings != [] && IsRestricted(hub.bindings[0])
    requires !Found(Clusters(hub, hub.bindings[0], policy, false), Base(hub, policy, false))
    requires forall o :: o in hub.bindings && o != hub.bindings[0] ==> !SetExcludes(hub, o, policy, c)
    ensures !SomeExcluded(Placements(hub, policy, false), c)
  {
    var p := Placements(hub, policy, false);
    forall e | e in p && e.policySet != "" && c in e.exclusions
      ensures false
    {
      var o := PlacementsOrigin(hub, policy, false, e);
      EntryOrigin(hub, o, policy, e);
      ExcludedOrigin(hub, policy, o, e, c);
      FirstIsNotListed(hub, policy, false, e);
    }
  }

  lemma ExcludedOrigin(hub: Hub, policy: string, o: Binding, e: Entry, c: string)
    requires e in Entries(hub, o, policy) && e.policySet != "" && c in e.exclusions
    ensures SetExcludes(hub, o, policy, c)
  {
    EntriesMeaning(hub, o, policy, e);
    var s :| s in o.subjects && SetSubject(hub, s, policy) && s.name == e.policySet;
  }

  lemma SetLast(hub: Hub, p: seq<Entry>)
    requires hub == TwoRestricted([DIRECT, THROUGH_SET]) && p == Placements(hub, "p", false)
    ensures SomeExcluded(p, "c") && !ExcludedVia(p, "c", "r1") && ListedBy(hub, "p", false, "c", "r1")
  {
    TwoRestrictedNames(hub);
    TwoRestrictedLists(hub);
    TwoRestrictedExcludes(hub);
    RivalLast(hub, "p", DIRECT, THROUGH_SET, "c");
    assert DIRECT in hub.bindings && DIRECT.name == "r1";
    if ExcludedVia(p, "c", "r1") {
      ExclusionIsReal(hub, "p", false, DIRECT, "c");
    }
  }

  lemma SetFirst(hub: Hub, p: seq<Entry>)
    requires hub == TwoRestricted([THROUGH_SET, DIRECT]) && p == Placements(hub, "p", false)
    ensures !SomeExcluded(p, "c")
  {
    TwoRestrictedNames(hub);
    TwoRestrictedExcludes(hub);
    RivalFirst(hub, "p", "c");
  }

  lemma ReportAt(p: seq<Entry>, d: DecisionSet, r: DecisionSet, c: string, n: string)
    requires IsReport(false, p, d, r)
    ensures n in At(r, c) <==> n in At(d, c) && !ExcludedVia(p, c, n) && SomeExcluded(p, c)
  {
  }

  /** For the same bindings, r1 is reported in one order and nothing in the other. */
  lemma RemainingDependsOnOrder(hub: Hub, other: Hub, p: seq<Entry>, q: seq<Entry>, d: DecisionSet, r: DecisionSet,
                                r': DecisionSet)
    requires hub == TwoRestricted([DIRECT, THROUGH_SET]) && other == TwoRestricted([THROUGH_SET, DIRECT])
    requires p == Placements(hub, "p", false) && q == Placements(other, "p", false)
    requires IsDecisionSet(hub, "p", false, d) && IsReport(false, p, d, r) && IsReport(false, q, d, r')
    ensures Reordered(hub, other) && "r1" in At(r, "c") && "r1" !in At(r', "c")
  {
    SetLast(hub, p);
    SetFirst(other, q);
    ReportAt(p, d, r, "c", "r1");
    ReportAt(q, d, r', "c", "r1");
  }
}
