/**
PolicySets: their exclusions, the webhook that validates them (api/v1beta1/policyset_webhook.go), and
the policies an update of a set concerns (controllers/common/policyset_handler.go).
*/
module PolicySets {
  import opened Basics
  import opened Ordering

  datatype Exclusion = Exclusion(policyName: string, reason: string, clusterNames: seq<string>)

  datatype PolicySet = PolicySet(policies: seq<string>, exclusions: seq<Exclusion>)

  /** Some exclusion of the set takes the cluster away from the policy. */
  ghost predicate Excludes(ps: PolicySet, policy: string, cluster: string)
  {
    exists i :: 0 <= i < |ps.exclusions| && ps.exclusions[i].policyName == policy &&
                cluster in ps.exclusions[i].clusterNames
  }

  /** IsPolicyInPolicySet; a missing set holds nothing. */
  predicate Lists(ps: Option<PolicySet>, policy: string)
  {
    ps.Some? && policy != "" && policy in ps.value.policies
  }

  /** The cluster names of all exclusions for the policy, in order. */
  function Collect(exclusions: seq<Exclusion>, policy: string): seq<string>
  {
    if exclusions == [] then []
    else (if exclusions[0].policyName == policy then exclusions[0].clusterNames else []) +
         Collect(exclusions[1..], policy)
  }

  function ExcludedClusters(ps: Option<PolicySet>, policy: string): seq<string>
  {
    if ps.None? then [] else Compact(Sort(Collect(ps.value.exclusions, policy), Itself))
  }

  lemma {:induction false} CollectSnoc(exclusions: seq<Exclusion>, e: Exclusion, policy: string)
    ensures Collect(exclusions + [e], policy) ==
            Collect(exclusions, policy) + if e.policyName == policy then e.clusterNames else []
  {
    if exclusions != [] {
      CollectSnoc(exclusions[1..], e, policy);
      assert (exclusions + [e])[1..] == exclusions[1..] + [e];
    }
  }

  /** The loops of ExcludedClustersForPolicy. */
  method CollectNames(exclusions: seq<Exclusion>, policy: string) returns (names: seq<string>)
    ensures names == Collect(exclusions, policy)
  {
    names := [];
    for i := 0 to |exclusions|
      invariant names == Collect(exclusions[..i], policy)
    {
      var clusters := exclusions[i].clusterNames;
      CollectSnoc(exclusions[..i], exclusions[i], policy);
      assert exclusions[..i + 1] == exclusions[..i] + [exclusions[i]];
      if exclusions[i].policyName == policy {
        ghost var before := names;
        for k := 0 to |clusters|
          invariant names == before + clusters[..k]
        {
          names := names + [clusters[k]];
        }
        assert clusters[..|clusters|] == clusters;
      }
    }
    assert exclusions[..|exclusions|] == exclusions;
  }

  method ExcludedClustersForPolicy(ps: Option<PolicySet>, policy: string) returns (r: seq<string>)
    ensures r == ExcludedClusters(ps, policy)
    ensures StrictlySorted(r)
    ensures forall c :: c in r <==> ps.Some? && Excludes(ps.value, policy, c)
  {
    if ps.None? || ps.value.exclusions == [] {
      r := [];
    } else {
      var names := CollectNames(ps.value.exclusions, policy);
      r := if names == [] then [] else Compact(Sort(names, Itself));
    }
    ExcludedClustersMeaning(ps, policy);
  }

  lemma {:induction false} CollectMeaning(exclusions: seq<Exclusion>, policy: string, c: string)
    ensures c in Collect(exclusions, policy) <==>
            exists i :: 0 <= i < |exclusions| && exclusions[i].policyName == policy && c in exclusions[i].clusterNames
  {
    if exclusions != [] {
      CollectMeaning(exclusions[1..], policy, c);
      var rest := exclusions[1..];
      if i :| 0 <= i < |exclusions| && exclusions[i].policyName == policy && c in exclusions[i].clusterNames {
        if i > 0 {
          assert rest[i - 1] == exclusions[i];
        }
      }
      if i :| 0 <= i < |rest| && rest[i].policyName == policy && c in rest[i].clusterNames {
        assert exclusions[i + 1] == rest[i];
      }
    }
  }

  lemma ExcludedClustersMeaning(ps: Option<PolicySet>, policy: string)
    ensures StrictlySorted(ExcludedClusters(ps, policy))
    ensures forall c :: c in ExcludedClusters(ps, policy) <==> ps.Some? && Excludes(ps.value, policy, c)
  {
    if ps.Some? {
      var all := Collect(ps.value.exclusions, policy);
      CompactSorted(Sort(all, Itself));
      forall c
        ensures c in ExcludedClusters(ps, policy) <==> Excludes(ps.value, policy, c)
      {
        CollectMeaning(ps.value.exclusions, policy, c);
        assert c in Sort(all, Itself) <==> c in multiset(Sort(all, Itself));
      }
    }
  }

  /******* The validating webhook *******/

  ghost predicate Repeated(exclusions: seq<Exclusion>, policy: string)
  {
    exists i, j :: 0 <= i < j < |exclusions| && exclusions[i].policyName == policy && exclusions[j].policyName == policy
  }

  ghost predicate Named(exclusions: seq<Exclusion>, policy: string)
  {
    exists i :: 0 <= i < |exclusions| && exclusions[i].policyName == policy
  }

  /** Every excluded policy is listed in the set, and none is excluded twice. */
  ghost predicate ValidExclusions(ps: PolicySet)
  {
    forall p :: (Named(ps.exclusions, p) ==> p in ps.policies) && !Repeated(ps.exclusions, p)
  }

  lemma NamedSnoc(exclusions: seq<Exclusion>, e: Exclusion, p: string)
    ensures Named(exclusions + [e], p) <==> Named(exclusions, p) || e.policyName == p
    ensures Repeated(exclusions + [e], p) <==> Repeated(exclusions, p) || (Named(exclusions, p) && e.policyName == p)
  {
    var all := exclusions + [e];
    assert all[|exclusions|] == e;
    assert forall i :: 0 <= i < |exclusions| ==> all[i] == exclusions[i];
    if Named(exclusions, p) {
      var i :| 0 <= i < |exclusions| && exclusions[i].policyName == p;
      assert all[i].policyName == p;
    }
    if Repeated(exclusions, p) {
      var i, j :| 0 <= i < j < |exclusions| && exclusions[i].policyName == p && exclusions[j].policyName == p;
      assert all[i].policyName == p && all[j].policyName == p;
    }
  }

  /** The repeated and the unlisted policy names, each reported once; the set is accepted when there are none. */
  method ValidateExclusions(ps: PolicySet) returns (duplicates: seq<string>, invalid: seq<string>)
    ensures forall p :: p in duplicates <==> Repeated(ps.exclusions, p)
    ensures forall p :: p in invalid <==> Named(ps.exclusions, p) && p !in ps.policies
    ensures forall i, j :: 0 <= i < j < |duplicates| ==> duplicates[i] != duplicates[j]
    ensures forall i, j :: 0 <= i < j < |invalid| ==> invalid[i] != invalid[j]
    ensures duplicates == [] && invalid == [] <==> ValidExclusions(ps)
  {
    duplicates, invalid := [], [];
    var exclusions := ps.exclusions;
    var seen: set<string> := {};
    for i := 0 to |exclusions|
      invariant forall p :: p in seen <==> Named(exclusions[..i], p)
      invariant forall p :: p in duplicates <==> Repeated(exclusions[..i], p)
      invariant forall p :: p in invalid <==> Named(exclusions[..i], p) && p !in ps.policies
      invariant forall k, l :: 0 <= k < l < |duplicates| ==> duplicates[k] != duplicates[l]
      invariant forall k, l :: 0 <= k < l < |invalid| ==> invalid[k] != invalid[l]
    {
      var name := exclusions[i].policyName;
      assert exclusions[..i + 1] == exclusions[..i] + [exclusions[i]];
      forall p
        ensures Named(exclusions[..i + 1], p) <==> Named(exclusions[..i], p) || name == p
        ensures Repeated(exclusions[..i + 1], p) <==>
                Repeated(exclusions[..i], p) || (Named(exclusions[..i], p) && name == p)
      {
        NamedSnoc(exclusions[..i], exclusions[i], p);
      }
      if name in seen {
        if name !in duplicates {
          duplicates := duplicates + [name];
        }
      } else {
        seen := seen + {name};
      }
      if name !in ps.policies && name !in invalid {
        invalid := invalid + [name];
      }
    }
    assert exclusions[..|exclusions|] == ps.exclusions;
    ListsEmptyExactly(ps, duplicates, invalid);
  }

  lemma ListsEmptyExactly(ps: PolicySet, duplicates: seq<string>, invalid: seq<string>)
    requires forall p :: p in duplicates <==> Repeated(ps.exclusions, p)
    requires forall p :: p in invalid <==> Named(ps.exclusions, p) && p !in ps.policies
    ensures duplicates == [] && invalid == [] <==> ValidExclusions(ps)
  {
    if duplicates != [] {
      assert duplicates[0] in duplicates;
    }
    if invalid != [] {
      assert invalid[0] in invalid;
    }
  }

  /******* What an update concerns *******/

  /** The entry of a map built from the exclusions in order: the last one for the policy. */
  function LastFor(exclusions: seq<Exclusion>, policy: string): Option<Exclusion>
  {
    if exclusions == [] then None
    else if exclusions[|exclusions| - 1].policyName == policy then Some(exclusions[|exclusions| - 1])
    else LastFor(exclusions[..|exclusions| - 1], policy)
  }

  predicate Differs(before: PolicySet, after: PolicySet, policy: string)
  {
    || (policy in before.policies) != (policy in after.policies)
    || LastFor(before.exclusions, policy) != LastFor(after.exclusions, policy)
  }

  /** A map from policy name to its exclusion, as both sides of the comparison build it. */
  method ExclusionMap(exclusions: seq<Exclusion>) returns (m: map<string, Exclusion>)
    ensures forall p :: p in m <==> LastFor(exclusions, p).Some?
    ensures forall p :: p in m ==> LastFor(exclusions, p) == Some(m[p])
  {
    m := map[];
    for i := 0 to |exclusions|
      invariant forall p :: p in m <==> LastFor(exclusions[..i], p).Some?
      invariant forall p :: p in m ==> LastFor(exclusions[..i], p) == Some(m[p])
    {
      assert exclusions[..i + 1][..i] == exclusions[..i];
      m := m[exclusions[i].policyName := exclusions[i]];
    }
    assert exclusions[..|exclusions|] == exclusions;
  }

  method GetPolicySetDiffs(before: PolicySet, after: PolicySet) returns (diff: set<string>)
    ensures forall p :: p in diff <==> Differs(before, after, p)
  {
    diff := {};
    var oldExclusions := ExclusionMap(before.exclusions);
    var newExclusions := ExclusionMap(after.exclusions);
    for i := 0 to |before.policies|
      invariant forall p :: p in diff <==> p in before.policies[..i] && p !in after.policies
    {
      if before.policies[i] !in after.policies {
        diff := diff + {before.policies[i]};
      }
    }
    for i := 0 to |after.policies|
      invariant forall p :: p in diff <==>
                  (p in before.policies && p !in after.policies) || (p in after.policies[..i] && p !in before.policies)
    {
      if after.policies[i] !in before.policies {
        diff := diff + {after.policies[i]};
      }
    }
    diff := diff + (set p | p in newExclusions && (p !in oldExclusions || newExclusions[p] != oldExclusions[p]));
    diff := diff + (set p | p in oldExclusions && p !in newExclusions);
  }

  lemma {:induction false} LastForMeaning(exclusions: seq<Exclusion>, p: string)
    ensures match LastFor(exclusions, p)
            case None => !Named(exclusions, p)
            case Some(e) => e in exclusions && e.policyName == p
  {
    if exclusions != [] {
      var n := |exclusions| - 1;
      LastForMeaning(exclusions[..n], p);
      NamedSnoc(exclusions[..n], exclusions[n], p);
      assert exclusions[..n] + [exclusions[n]] == exclusions;
    }
  }

  /** The last exclusion for the policy names the cluster. */
  predicate LastExcludes(exclusions: seq<Exclusion>, policy: string, c: string)
  {
    LastFor(exclusions, policy).Some? && c in LastFor(exclusions, policy).value.clusterNames
  }

  /** An exclusion for the policy that is not the last one names the cluster. */
  ghost predicate EarlierExcludes(exclusions: seq<Exclusion>, policy: string, c: string)
  {
    exists i, j :: 0 <= i < j < |exclusions| && exclusions[i].policyName == policy &&
                   exclusions[j].policyName == policy && c in exclusions[i].clusterNames
  }

  lemma {:induction false} LastForIndex(exclusions: seq<Exclusion>, p: string) returns (k: nat)
    requires LastFor(exclusions, p).Some?
    ensures k < |exclusions| && exclusions[k] == LastFor(exclusions, p).value && exclusions[k].policyName == p
    ensures forall j :: k < j < |exclusions| ==> exclusions[j].policyName != p
  {
    var n := |exclusions| - 1;
    if exclusions[n].policyName == p {
      k := n;
    } else {
      k := LastForIndex(exclusions[..n], p);
    }
  }

  lemma ExcludesSplit(ps: PolicySet, policy: string, c: string)
    ensures Excludes(ps, policy, c) <==>
            LastExcludes(ps.exclusions, policy, c) || EarlierExcludes(ps.exclusions, policy, c)
  {
    LastForMeaning(ps.exclusions, policy);
    if LastFor(ps.exclusions, policy).Some? {
      var k := LastForIndex(ps.exclusions, policy);
      if Excludes(ps, policy, c) {
        var i :| 0 <= i < |ps.exclusions| && ps.exclusions[i].policyName == policy &&
                 c in ps.exclusions[i].clusterNames;
        assert i == k || i < k;
      }
    }
  }

  /** A policy that an update does not report keeps its excluded clusters exactly when its earlier
      exclusions name the same clusters before and after, apart from those its last exclusion names. */
  lemma UnreportedExactly(before: PolicySet, after: PolicySet, policy: string)
    requires !Differs(before, after, policy)
    ensures ExcludedClusters(Some(before), policy) == ExcludedClusters(Some(after), policy) <==>
            forall c :: !LastExcludes(after.exclusions, policy, c) ==>
              (EarlierExcludes(before.exclusions, policy, c) <==> EarlierExcludes(after.exclusions, policy, c))
  {
    ExcludedClustersMeaning(Some(before), policy);
    ExcludedClustersMeaning(Some(after), policy);
    forall c
      ensures c in ExcludedClusters(Some(before), policy) <==>
              LastExcludes(after.exclusions, policy, c) || EarlierExcludes(before.exclusions, policy, c)
      ensures c in ExcludedClusters(Some(after), policy) <==>
              LastExcludes(after.exclusions, policy, c) || EarlierExcludes(after.exclusions, policy, c)
    {
      ExcludesSplit(before, policy, c);
      ExcludesSplit(after, policy, c);
    }
    if forall c :: c in ExcludedClusters(Some(before), policy) <==> c in ExcludedClusters(Some(after), policy) {
      StrictUnique(ExcludedClusters(Some(before), policy), ExcludedClusters(Some(after), policy));
    }
  }

  /** The exclusions for one policy, in order. */
  function Only(exclusions: seq<Exclusion>, policy: string): seq<Exclusion>
  {
    if exclusions == [] then []
    else
      var n := |exclusions| - 1;
      Only(exclusions[..n], policy) + if exclusions[n].policyName == policy then [exclusions[n]] else []
  }

  lemma {:induction false} LastForOnly(exclusions: seq<Exclusion>, policy: string)
    ensures var only := Only(exclusions, policy);
            LastFor(exclusions, policy) == if only == [] then None else Some(only[|only| - 1])
  {
    if exclusions != [] && exclusions[|exclusions| - 1].policyName != policy {
      LastForOnly(exclusions[..|exclusions| - 1], policy);
    }
  }

  /** A policy is reported only if its membership or its exclusions changed. */
  lemma ReportedHasChanged(before: PolicySet, after: PolicySet, policy: string)
    requires Differs(before, after, policy)
    ensures (policy in before.policies) != (policy in after.policies) ||
            Only(before.exclusions, policy) != Only(after.exclusions, policy)
  {
    LastForOnly(before.exclusions, policy);
    LastForOnly(after.exclusions, policy);
  }

  /** Between valid sets, a policy the update does not concern keeps its membership and its exclusions. */
  lemma UnconcernedPolicyUnchanged(before: PolicySet, after: PolicySet, policy: string)
    requires ValidExclusions(before) && ValidExclusions(after) && !Differs(before, after, policy)
    ensures Lists(Some(before), policy) == Lists(Some(after), policy)
    ensures ExcludedClusters(Some(before), policy) == ExcludedClusters(Some(after), policy)
  {
    UnreportedExactly(before, after, policy);
    assert !Repeated(before.exclusions, policy) && !Repeated(after.exclusions, policy);
  }

  /** The webhook is needed for that: with a repeated exclusion, dropping the first goes unnoticed. */
  lemma RepetitionGoesUnnoticed(p: string, c: string, d: string)
    requires c != d && p != ""
    ensures var before := PolicySet([p], [Exclusion(p, "", [c]), Exclusion(p, "", [d])]);
            var after := PolicySet([p], [Exclusion(p, "", [d])]);
            && !Differs(before, after, p)
            && Excludes(before, p, c) && !Excludes(after, p, c)
            && !ValidExclusions(before) && ValidExclusions(after)
  {
    var first, second := Exclusion(p, "", [c]), Exclusion(p, "", [d]);
    var before, after := PolicySet([p], [first, second]), PolicySet([p], [second]);
    assert before.exclusions[0] == first && before.exclusions[1] == second;
    assert Repeated(before.exclusions, p);
    forall q
      ensures (Named(after.exclusions, q) ==> q in after.policies) && !Repeated(after.exclusions, q)
    {
    }
  }
}
