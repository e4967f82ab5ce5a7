/**
Which replicated policies are put on the work queue when a PlacementBinding or a PlacementDecision
changes (controllers/propagator/replicatepolicy_pb_eventHandler.go and replicatepolicy_pd_eventHandler.go),
and the helpers of controllers/common/common.go they are made of.
*/
module Enqueue {
  import opened Basics
  import opened DottedNames
  import opened Placement

  ghost predicate Distinct<T(!new)>(s: seq<T>)
  {
    forall i, j :: 0 <= i < j < |s| ==> s[i] != s[j]
  }

  /******* GetAffectedObjs *******/

  /** What the table of GetAffectedObjs ends up with. */
  ghost function Tally<T>(olds: seq<T>, news: seq<T>, x: T): nat
  {
    (if x in olds then 1 else 0) + multiset(news)[x]
  }

  function Count<T>(table: map<T, nat>, x: T): nat
  {
    if x in table then table[x] else 0
  }

  method CountObjs<T(==, !new)>(olds: seq<T>, news: seq<T>) returns (table: map<T, nat>)
    ensures forall x :: Count(table, x) == Tally(olds, news, x)
  {
    table := map[];
    for i := 0 to |olds|
      invariant forall x :: Count(table, x) == if x in olds[..i] then 1 else 0
    {
      ghost var before := table;
      table := table[olds[i] := 1];
      assert olds[..i + 1] == olds[..i] + [olds[i]];
      assert forall x :: Count(table, x) == if x == olds[i] then 1 else Count(before, x);
    }
    assert olds[..|olds|] == olds;
    for i := 0 to |news|
      invariant forall x :: Count(table, x) == Tally(olds, news[..i], x)
    {
      assert news[..i + 1] == news[..i] + [news[i]];
      ghost var before := table;
      table := table[news[i] := Count(table, news[i]) + 1];
      assert forall x :: Count(table, x) == Count(before, x) + if x == news[i] then 1 else 0;
    }
    assert news[..|news|] == news;
  }

  method GetAffectedObjs<T(==, !new)>(olds: seq<T>, news: seq<T>) returns (result: seq<T>)
    ensures Distinct(result)
    ensures forall x :: x in result <==> Tally(olds, news, x) == 1
  {
    var table := CountObjs(olds, news);
    result := [];
    var left := table.Keys;
    while left != {}
      invariant left <= table.Keys
      invariant Distinct(result)
      invariant forall x :: x in result <==> x in table.Keys - left && table[x] == 1
    {
      var x :| x in left;
      if table[x] == 1 {
        assert forall i :: 0 <= i < |result| ==> result[i] in result;
        result := result + [x];
      }
      left := left - {x};
    }
    assert forall x :: Count(table, x) == 1 ==> x in table;
  }

  /** GetAffectedObjs is the symmetric difference exactly when whatever the second list repeats is also
      in the first. */
  lemma DifferenceExactly<T(!new)>(olds: seq<T>, news: seq<T>)
    ensures (forall x :: Tally(olds, news, x) == 1 <==> (x in olds) != (x in news)) <==>
            (forall x :: multiset(news)[x] > 1 ==> x in olds)
  {
    assert forall x :: x in news <==> multiset(news)[x] > 0;
    if x :| multiset(news)[x] > 1 && x !in olds {
      assert Tally(olds, news, x) != 1;
    }
  }

  /******* Names of replicas *******/

  /** A reconcile request for a replicated policy. */
  datatype Request = Request(name: string, namespace: string)

  /** FullNameForPolicy */
  function FullName(namespace: string, name: string): string
  {
    namespace + "." + name
  }

  /** ParseRootPolicyLabel: the name and the namespace, or the error for a label without a dot. */
  function ParseRootPolicyLabel(rootPlc: string): Option<(string, string)>
  {
    match Cut(rootPlc)
    case None => None
    case Some(parts) => Some((parts.1, parts.0))
  }

  /** A namespace holds no dot, so the label gives back the name and the namespace it was made of; a
      label is refused exactly when it has no dot. */
  lemma LabelRoundTrip(namespace: string, name: string, rootPlc: string)
    requires '.' !in namespace
    ensures ParseRootPolicyLabel(FullName(namespace, name)) == Some((name, namespace))
    ensures ParseRootPolicyLabel(rootPlc).None? <==> '.' !in rootPlc
  {
    CutJoined(namespace, name);
    CutNothing(rootPlc);
  }

  /** The replica of a policy of namespace `ns` on a cluster. */
  function Replica(ns: string, policy: string, cluster: string): Request
  {
    Request(FullName(ns, policy), cluster)
  }

  /** The request names the policy and its namespace, and is in the namespace of the cluster. */
  lemma ReplicaParses(ns: string, p: string, c: string)
    requires '.' !in ns
    ensures ParseRootPolicyLabel(Replica(ns, p, c).name) == Some((p, ns)) && Replica(ns, p, c).namespace == c
  {
    LabelRoundTrip(ns, p, "");
  }

  lemma ReplicaInjective(ns: string, p: string, c: string, q: string, d: string)
    requires Replica(ns, p, c) == Replica(ns, q, d)
    ensures p == q && c == d
  {
    assert FullName(ns, p)[|ns| + 1..] == p && FullName(ns, q)[|ns| + 1..] == q;
  }

  /******* Policies of a binding *******/

  predicate NamedBy(hub: Hub, s: Subject, p: string)
  {
    s.group == POLICY_GROUP &&
    if s.kind == POLICY_KIND then s.name == p
    else s.kind == POLICY_SET_KIND && s.name in hub.policySets && p in hub.policySets[s.name].policies
  }

  /** The policy is a subject of the binding, or is in a PolicySet that is. */
  ghost predicate Names(hub: Hub, b: Binding, p: string)
  {
    exists s :: s in b.subjects && NamedBy(hub, s, p)
  }

  method CollectPolicies(hub: Hub, b: Binding) returns (table: set<string>)
    ensures forall p :: p in table <==> Names(hub, b, p)
  {
    table := {};
    for i := 0 to |b.subjects|
      invariant forall p :: p in table <==> exists s :: s in b.subjects[..i] && NamedBy(hub, s, p)
    {
      var s := b.subjects[i];
      assert b.subjects[..i + 1] == b.subjects[..i] + [s];
      ghost var before := table;
      if s.group == POLICY_GROUP {
        if s.kind == POLICY_KIND {
          table := table + {s.name};
        } else if s.kind == POLICY_SET_KIND {
          if s.name in hub.policySets {
            var policies := hub.policySets[s.name].policies;
            for k := 0 to |policies|
              invariant table == before + set p | p in policies[..k]
            {
              table := table + {policies[k]};
            }
            assert policies[..|policies|] == policies;
          }
        }
      }
      assert forall p :: p in table <==> p in before || NamedBy(hub, s, p);
    }
    assert b.subjects[..|b.subjects|] == b.subjects;
  }

  method GetPoliciesInPlacementBinding(hub: Hub, b: Binding) returns (policies: seq<string>)
    ensures Distinct(policies)
    ensures forall p :: p in policies <==> Names(hub, b, p)
  {
    var table := CollectPolicies(hub, b);
    policies := [];
    var left := table;
    while left != {}
      invariant left <= table
      invariant Distinct(policies)
      invariant forall p :: p in policies <==> p in table - left
    {
      var p :| p in left;
      assert forall i :: 0 <= i < |policies| ==> policies[i] in policies;
      policies := policies + [p];
      left := left - {p};
    }
  }

  /** The request is for a policy of the binding on a cluster of its placement. */
  ghost predicate IsReplica(hub: Hub, ns: string, b: Binding, r: Request)
  {
    exists p, c :: Names(hub, b, p) && c in Decisions(hub, b) && r == Replica(ns, p, c)
  }

  lemma IsReplicaOf(hub: Hub, ns: string, b: Binding, p: string, c: string)
    ensures IsReplica(hub, ns, b, Replica(ns, p, c)) <==> Names(hub, b, p) && c in Decisions(hub, b)
  {
    if IsReplica(hub, ns, b, Replica(ns, p, c)) {
      var q, d :| Names(hub, b, q) && d in Decisions(hub, b) && Replica(ns, p, c) == Replica(ns, q, d);
      ReplicaInjective(ns, p, c, q, d);
    }
  }

  /** The replicas of one policy. */
  function Row(ns: string, p: string, clusters: seq<string>): seq<Request>
  {
    seq(|clusters|, i requires 0 <= i < |clusters| => Replica(ns, p, clusters[i]))
  }

  function Rows(ns: string, policies: seq<string>, clusters: seq<string>): seq<Request>
  {
    if policies == [] then []
    else Rows(ns, policies[..|policies| - 1], clusters) + Row(ns, policies[|policies| - 1], clusters)
  }

  lemma {:induction false} RowsMeaning(ns: string, policies: seq<string>, clusters: seq<string>, r: Request)
    ensures r in Rows(ns, policies, clusters) <==>
            exists p, c :: p in policies && c in clusters && r == Replica(ns, p, c)
  {
    if policies != [] {
      var n := |policies| - 1;
      RowsMeaning(ns, policies[..n], clusters, r);
      assert policies == policies[..n] + [policies[n]];
      RowMeaning(ns, policies[n], clusters, r);
    }
  }

  lemma RowMeaning(ns: string, p: string, clusters: seq<string>, r: Request)
    ensures r in Row(ns, p, clusters) <==> exists c :: c in clusters && r == Replica(ns, p, c)
  {
    if c :| c in clusters && r == Replica(ns, p, c) {
      var i :| 0 <= i < |clusters| && clusters[i] == c;
      assert Row(ns, p, clusters)[i] == r;
    }
  }

  lemma {:induction false} RowCount(ns: string, q: string, clusters: seq<string>, p: string, c: string)
    ensures multiset(Row(ns, q, clusters))[Replica(ns, p, c)] == if p == q then multiset(clusters)[c] else 0
  {
    if clusters != [] {
      var n := |clusters| - 1;
      RowCount(ns, q, clusters[..n], p, c);
      assert clusters == clusters[..n] + [clusters[n]];
      assert Row(ns, q, clusters) == Row(ns, q, clusters[..n]) + [Replica(ns, q, clusters[n])];
      if Replica(ns, p, c) == Replica(ns, q, clusters[n]) {
        ReplicaInjective(ns, p, c, q, clusters[n]);
      }
    }
  }

  lemma {:induction false} RowsCount(ns: string, policies: seq<string>, clusters: seq<string>, p: string, c: string)
    requires Distinct(policies)
    ensures multiset(Rows(ns, policies, clusters))[Replica(ns, p, c)] ==
            if p in policies then multiset(clusters)[c] else 0
  {
    if policies != [] {
      var n := |policies| - 1;
      RowsCount(ns, policies[..n], clusters, p, c);
      RowCount(ns, policies[n], clusters, p, c);
      assert policies == policies[..n] + [policies[n]];
    }
  }

  /** How often the binding lists the policy's replica on the cluster. */
  ghost function Copies(hub: Hub, b: Binding, p: string, c: string): nat
  {
    if Names(hub, b, p) then multiset(Decisions(hub, b))[c] else 0
  }

  method GetRepPoliciesInPlacementBinding(hub: Hub, ns: string, b: Binding) returns (result: seq<Request>)
    ensures forall r :: r in result <==> IsReplica(hub, ns, b, r)
    ensures forall p, c :: multiset(result)[Replica(ns, p, c)] == Copies(hub, b, p, c)
  {
    var decisions := GetDecisions(hub, b);
    var policies := GetPoliciesInPlacementBinding(hub, b);
    result := [];
    for i := 0 to |policies|
      invariant result == Rows(ns, policies[..i], decisions)
    {
      assert policies[..i + 1][..i] == policies[..i];
      ghost var before := result;
      for k := 0 to |decisions|
        invariant result == before + Row(ns, policies[i], decisions)[..k]
      {
        result := result + [Request(ns + "." + policies[i], decisions[k])];
      }
    }
    assert policies[..|policies|] == policies;
    forall r
      ensures r in result <==> IsReplica(hub, ns, b, r)
    {
      RowsMeaning(ns, policies, decisions, r);
    }
    forall p, c
      ensures multiset(result)[Replica(ns, p, c)] == Copies(hub, b, p, c)
    {
      RowsCount(ns, policies, decisions, p, c);
    }
  }

  /** GetRootPolicyRequests: the policies of the bindings that refer to the Placement or PlacementRule. */
  ghost predicate IsRequested(hub: Hub, ref: Ref, p: string)
  {
    exists b :: b in hub.bindings && b.ref == ref && Names(hub, b, p)
  }

  method GetRootPolicyRequests(hub: Hub, ref: Ref) returns (policies: seq<string>)
    ensures forall p :: p in policies <==> IsRequested(hub, ref, p)
  {
    policies := [];
    for i := 0 to |hub.bindings|
      invariant forall p :: p in policies <==> exists b :: b in hub.bindings[..i] && b.ref == ref && Names(hub, b, p)
    {
      var b := hub.bindings[i];
      assert hub.bindings[..i + 1] == hub.bindings[..i] + [b];
      if b.ref.group == ref.group && b.ref.kind == ref.kind && b.ref.name == ref.name {
        var more := GetPoliciesInPlacementBinding(hub, b);
        policies := policies + more;
      }
    }
    assert hub.bindings[..|hub.bindings|] == hub.bindings;
  }

  /******* The event handlers *******/

  /** The work queue drops repeated requests. */
  class WorkQueue {
    var requests: set<Request>

    constructor ()
      ensures requests == {}
    {
      requests := {};
    }

    method Add(r: Request)
      modifies this
      ensures requests == old(requests) + {r}
    {
      requests := requests + {r};
    }

    method AddAll(rs: seq<Request>)
      modifies this
      ensures requests == old(requests) + set r | r in rs
    {
      for i := 0 to |rs|
        invariant requests == old(requests) + set r | r in rs[..i]
      {
        Add(rs[i]);
      }
      assert rs[..|rs|] == rs;
    }

    /** Every policy on the cluster of every choice. */
    method AddRows(ns: string, policies: seq<string>, choices: seq<Choice>)
      modifies this
      ensures requests == old(requests) + set r | r in Rows(ns, policies, ClusterNames(choices))
    {
      for i := 0 to |policies|
        invariant requests == old(requests) + set r | r in Rows(ns, policies[..i], ClusterNames(choices))
      {
        assert policies[..i + 1][..i] == policies[..i];
        AddRow(ns, policies[i], choices);
      }
      assert policies[..|policies|] == policies;
    }

    method AddRow(ns: string, policy: string, choices: seq<Choice>)
      modifies this
      ensures requests == old(requests) + set r | r in Row(ns, policy, ClusterNames(choices))
    {
      ghost var row := Row(ns, policy, ClusterNames(choices));
      for k := 0 to |choices|
        invariant requests == old(requests) + set r | r in row[..k]
      {
        assert row[..k + 1] == row[..k] + [row[k]] && row[k] == Request(ns + "." + policy, choices[k].cluster);
        Add(Request(ns + "." + policy, choices[k].cluster));
      }
      assert row[..|choices|] == row;
    }
  }

  predicate ForPolicyOrSet(s: Subject)
  {
    s.group == POLICY_GROUP && (s.kind == POLICY_KIND || s.kind == POLICY_SET_KIND)
  }

  method IsForPolicyOrPolicySet(b: Binding) returns (yes: bool)
    ensures yes <==> exists s :: s in b.subjects && ForPolicyOrSet(s)
  {
    for i := 0 to |b.subjects|
      invariant forall s :: s in b.subjects[..i] ==> !ForPolicyOrSet(s)
    {
      if ForPolicyOrSet(b.subjects[i]) {
        assert b.subjects[i] in b.subjects;
        return true;
      }
    }
    return false;
  }

  /** A binding without a Policy or PolicySet subject has no replicas. */
  lemma NoSubjectNoReplica(hub: Hub, ns: string, b: Binding)
    requires forall s :: s in b.subjects ==> !ForPolicyOrSet(s)
    ensures forall r :: !IsReplica(hub, ns, b, r)
  {
  }

  /** A PlacementBinding was created. */
  method BindingCreated(hub: Hub, ns: string, b: Binding, q: WorkQueue)
    modifies q
    ensures forall r :: r in q.requests <==> r in old(q.requests) || IsReplica(hub, ns, b, r)
  {
    var relevant := IsForPolicyOrPolicySet(b);
    if relevant {
      var reqs := GetRepPoliciesInPlacementBinding(hub, ns, b);
      q.AddAll(reqs);
    } else {
      NoSubjectNoReplica(hub, ns, b);
    }
  }

  predicate SameSettings(a: Binding, b: Binding)
  {
    a.remediation == b.remediation && a.subFilter == b.subFilter
  }

  /** What an update of a binding puts on the queue: everything, if its override or its filter changed;
      else what the old version selects and the new one does not, or the new one exactly once and the old
      one not. */
  ghost predicate UpdateAdds(hub: Hub, a: Binding, b: Binding, p: string, c: string)
  {
    if SameSettings(a, b) then (if Copies(hub, a, p, c) > 0 then 1 else 0) + Copies(hub, b, p, c) == 1
    else Copies(hub, a, p, c) > 0 || Copies(hub, b, p, c) > 0
  }

  /** A PlacementBinding was updated from `a` to `b`. */
  method BindingUpdated(hub: Hub, ns: string, a: Binding, b: Binding, q: WorkQueue)
    modifies q
    ensures old(q.requests) <= q.requests
    ensures forall r :: r in q.requests ==> r in old(q.requests) || IsReplica(hub, ns, a, r) || IsReplica(hub, ns, b, r)
    ensures forall p, c :: Replica(ns, p, c) in q.requests <==>
              Replica(ns, p, c) in old(q.requests) || UpdateAdds(hub, a, b, p, c)
  {
    var newRelevant := IsForPolicyOrPolicySet(b);
    var oldRelevant := IsForPolicyOrPolicySet(a);
    if !newRelevant && !oldRelevant {
      assert forall p :: !Names(hub, a, p) && !Names(hub, b, p);
      return;
    }
    var olds := GetRepPoliciesInPlacementBinding(hub, ns, a);
    var news := GetRepPoliciesInPlacementBinding(hub, ns, b);
    CopiesIn(hub, ns, a, olds);
    CopiesIn(hub, ns, b, news);
    if b.remediation != a.remediation || b.subFilter != a.subFilter {
      q.AddAll(news);
      q.AddAll(olds);
      return;
    }
    var affected := GetAffectedObjs(olds, news);
    forall r | r in affected
      ensures r in olds || r in news
    {
      assert Tally(olds, news, r) == 1;
    }
    q.AddAll(affected);
  }

  lemma CopiesIn(hub: Hub, ns: string, b: Binding, reqs: seq<Request>)
    requires forall p, c :: multiset(reqs)[Replica(ns, p, c)] == Copies(hub, b, p, c)
    ensures forall p, c :: Replica(ns, p, c) in reqs <==> Copies(hub, b, p, c) > 0
  {
    forall p, c
      ensures Replica(ns, p, c) in reqs <==> Copies(hub, b, p, c) > 0
    {
      assert Replica(ns, p, c) in reqs <==> multiset(reqs)[Replica(ns, p, c)] > 0;
    }
  }

  /** The handlers look at bindings of the Placement the label names. */
  function PlacementRef(owner: Option<string>): Ref
  {
    Ref(PLACEMENT_GROUP, "Placement", if owner.Some? then owner.value else "")
  }

  /** The request is for a policy bound to the placement, on a cluster that only one version selects in
      the same way; GetAffectedObjs is given the new list first. */
  ghost predicate DecisionAdds(hub: Hub, a: PlacementDecision, b: PlacementDecision, p: string, c: string)
  {
    && PlacementRef(b.owner).name != ""
    && IsRequested(hub, PlacementRef(b.owner), p)
    && exists ch: Choice :: ch.cluster == c && Tally(b.choices, a.choices, ch) == 1
  }

  /** A PlacementDecision was updated from `a` to `b`. */
  method DecisionUpdated(hub: Hub, ns: string, a: PlacementDecision, b: PlacementDecision, q: WorkQueue)
    modifies q
    ensures forall p, c :: Replica(ns, p, c) in q.requests <==>
              Replica(ns, p, c) in old(q.requests) || DecisionAdds(hub, a, b, p, c)
  {
    var placementName := if b.owner.Some? then b.owner.value else "";
    if placementName == "" {
      return;
    }
    var affected := GetAffectedObjs(b.choices, a.choices);
    if affected == [] {
      assert forall ch :: ch !in affected;
      return;
    }
    var policies := GetRootPolicyRequests(hub, Ref(PLACEMENT_GROUP, "Placement", placementName));
    q.AddRows(ns, policies, affected);
    forall p, c
      ensures Replica(ns, p, c) in Rows(ns, policies, ClusterNames(affected)) <==> DecisionAdds(hub, a, b, p, c)
    {
      RowsHave(ns, policies, ClusterNames(affected), p, c);
      ClusterNamesHave(affected, c);
    }
  }

  /** The policy is bound to the placement, and the PlacementDecision lists the cluster. */
  ghost predicate DecisionSelects(hub: Hub, d: PlacementDecision, p: string, c: string)
  {
    && PlacementRef(d.owner).name != ""
    && IsRequested(hub, PlacementRef(d.owner), p)
    && c in ClusterNames(d.choices)
  }

  /** A PlacementDecision was created or deleted. */
  method DecisionAppearedOrWent(hub: Hub, ns: string, d: PlacementDecision, q: WorkQueue)
    modifies q
    ensures forall p, c :: Replica(ns, p, c) in q.requests <==>
              Replica(ns, p, c) in old(q.requests) || DecisionSelects(hub, d, p, c)
  {
    if d.choices == [] {
      return;
    }
    var placementName := if d.owner.Some? then d.owner.value else "";
    if placementName == "" {
      return;
    }
    var policies := GetRootPolicyRequests(hub, Ref(PLACEMENT_GROUP, "Placement", placementName));
    var result: seq<Request> := [];
    for i := 0 to |policies|
      invariant result == Rows(ns, policies[..i], ClusterNames(d.choices))
    {
      assert policies[..i + 1][..i] == policies[..i];
      ghost var before := result;
      for k := 0 to |d.choices|
        invariant result == before + Row(ns, policies[i], ClusterNames(d.choices))[..k]
      {
        result := result + [Request(ns + "." + policies[i], d.choices[k].cluster)];
      }
    }
    assert policies[..|policies|] == policies;
    q.AddAll(result);
    forall p, c
      ensures Replica(ns, p, c) in result <==> DecisionSelects(hub, d, p, c)
    {
      RowsHave(ns, policies, ClusterNames(d.choices), p, c);
    }
  }

  lemma RowsHave(ns: string, policies: seq<string>, clusters: seq<string>, p: string, c: string)
    ensures Replica(ns, p, c) in Rows(ns, policies, clusters) <==> p in policies && c in clusters
  {
    RowsMeaning(ns, policies, clusters, Replica(ns, p, c));
    if Replica(ns, p, c) in Rows(ns, policies, clusters) {
      var q, d :| q in policies && d in clusters && Replica(ns, p, c) == Replica(ns, q, d);
      ReplicaInjective(ns, p, c, q, d);
    }
  }

  lemma ClusterNamesHave(choices: seq<Choice>, c: string)
    ensures c in ClusterNames(choices) <==> exists ch :: ch in choices && ch.cluster == c
  {
    if ch :| ch in choices && ch.cluster == c {
      var i :| 0 <= i < |choices| && choices[i] == ch;
      assert ClusterNames(choices)[i] == c;
    }
  }
}
