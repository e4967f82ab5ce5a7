/**
Canonicalisation of policy dependencies and the set of PolicySets that must be watched for it
(controllers/propagator/replication.go).
*/
module Dependencies {
  import opened Basics
  import opened DottedNames

  datatype Dependency = Dependency(kind: string, apiVersion: string, name: string, namespace: string,
                                   compliance: string)

  /** Namespace and name; the group, version and kind of the watched object are those of a PolicySet. */
  datatype SetId = SetId(namespace: string, name: string)

  /** The PolicySets on the hub, with the policies they list. */
  type PolicySets = map<SetId, seq<string>>

  /** The parts of a root policy that matter here: its namespace, its dependencies, and the
      extraDependencies of each of its templates. */
  datatype Root = Root(namespace: string, dependencies: seq<Dependency>, extra: seq<seq<Dependency>>)

  const POLICY_API: string := "policy.open-cluster-management.io/v1"
  const POLICY_SET_API: string := "policy.open-cluster-management.io/v1beta1"

  predicate IsPolicySet(d: Dependency)
  {
    d.kind == POLICY_SET_KIND && d.apiVersion == POLICY_SET_API
  }

  predicate IsPolicy(d: Dependency)
  {
    d.kind == POLICY_KIND && d.apiVersion == POLICY_API
  }

  /** strings.Split on "." yields at least two parts. */
  predicate Dotted(name: string)
  {
    '.' in name
  }

  function NamespaceOf(d: Dependency, defaultNamespace: string): string
  {
    if d.namespace == "" then defaultNamespace else d.namespace
  }

  function IdOf(d: Dependency, defaultNamespace: string): SetId
  {
    SetId(NamespaceOf(d, defaultNamespace), d.name)
  }

  function Member(d: Dependency, namespace: string, policy: string): Dependency
  {
    Dependency(POLICY_KIND, POLICY_API, namespace + "." + policy, "", d.compliance)
  }

  /******* What one dependency, and a list of them, stands for *******/

  function Members(d: Dependency, namespace: string, policies: seq<string>): seq<Dependency>
  {
    seq(|policies|, i requires 0 <= i < |policies| => Member(d, namespace, policies[i]))
  }

  function CanonicalOne(sets: PolicySets, d: Dependency, ns: string): seq<Dependency>
  {
    if IsPolicySet(d) then
      if IdOf(d, ns) in sets then Members(d, NamespaceOf(d, ns), sets[IdOf(d, ns)])
      else [d.(namespace := NamespaceOf(d, ns))]
    else if IsPolicy(d) && !(d.namespace == "" && Dotted(d.name)) then
      [d.(name := NamespaceOf(d, ns) + "." + d.name, namespace := "")]
    else [d]
  }

  function Canonical(sets: PolicySets, deps: seq<Dependency>, ns: string): seq<Dependency>
  {
    if deps == [] then [] else CanonicalOne(sets, deps[0], ns) + Canonical(sets, deps[1..], ns)
  }

  /** The dependencies and extraDependencies a replica gets. */
  function ReplicaDependencies(sets: PolicySets, root: Root): (seq<Dependency>, seq<seq<Dependency>>)
  {
    (Canonical(sets, root.dependencies, root.namespace),
     seq(|root.extra|, i requires 0 <= i < |root.extra| => Canonical(sets, root.extra[i], root.namespace)))
  }

  /******* As the controller computes it *******/

  /** The inner loop over the policies of a PolicySet. */
  method Expand(dep: Dependency, policies: seq<string>) returns (deps: seq<Dependency>)
    ensures deps == Members(dep, dep.namespace, policies)
  {
    deps := [];
    for k := 0 to |policies|
      invariant deps == Members(dep, dep.namespace, policies[..k])
    {
      deps := deps + [Dependency(POLICY_KIND, POLICY_API, dep.namespace + "." + policies[k], "", dep.compliance)];
    }
    assert policies[..|policies|] == policies;
  }

  method CanonicalizeDependencies(sets: PolicySets, rawDeps: seq<Dependency>, defaultNamespace: string)
    returns (deps: seq<Dependency>)
    ensures deps == Canonical(sets, rawDeps, defaultNamespace)
  {
    deps := [];
    for i := 0 to |rawDeps|
      invariant deps == Canonical(sets, rawDeps[..i], defaultNamespace)
    {
      var dep := rawDeps[i];
      CanonicalSnoc(sets, rawDeps[..i], dep, defaultNamespace);
      assert rawDeps[..i + 1] == rawDeps[..i] + [dep];
      if IsPolicySet(dep) {
        if dep.namespace == "" {
          dep := dep.(namespace := defaultNamespace);
        }
        if SetId(dep.namespace, dep.name) !in sets {
          deps := deps + [dep];
        } else {
          var members := Expand(dep, sets[SetId(dep.namespace, dep.name)]);
          deps := deps + members;
        }
      } else if IsPolicy(dep) {
        if dep.namespace == "" && Dotted(dep.name) {
          deps := deps + [dep];
        } else {
          if dep.namespace == "" {
            dep := dep.(namespace := defaultNamespace);
          }
          dep := dep.(name := dep.namespace + "." + dep.name);
          dep := dep.(namespace := "");
          deps := deps + [dep];
        }
      } else {
        deps := deps + [dep];
      }
    }
    assert rawDeps[..|rawDeps|] == rawDeps;
  }

  /** The dependency part of buildReplicatedPolicy. */
  method BuildDependencies(sets: PolicySets, root: Root) returns (deps: seq<Dependency>, extra: seq<seq<Dependency>>)
    ensures deps == ReplicaDependencies(sets, root).0 && extra == ReplicaDependencies(sets, root).1
  {
    deps := CanonicalizeDependencies(sets, root.dependencies, root.namespace);
    extra := root.extra;
    for i := 0 to |root.extra|
      invariant |extra| == |root.extra|
      invariant forall k :: 0 <= k < i ==> extra[k] == Canonical(sets, root.extra[k], root.namespace)
      invariant forall k :: i <= k < |root.extra| ==> extra[k] == root.extra[k]
    {
      var canonical := CanonicalizeDependencies(sets, extra[i], root.namespace);
      extra := extra[i := canonical];
    }
  }

  lemma {:induction false} CanonicalSnoc(sets: PolicySets, deps: seq<Dependency>, d: Dependency, ns: string)
    ensures Canonical(sets, deps + [d], ns) == Canonical(sets, deps, ns) + CanonicalOne(sets, d, ns)
  {
    if deps != [] {
      CanonicalSnoc(sets, deps[1..], d, ns);
      assert (deps + [d])[1..] == deps[1..] + [d];
    }
  }

  /** The PolicySets named by one list of dependencies. */
  function Named(deps: seq<Dependency>, ns: string): set<SetId>
  {
    set i | 0 <= i < |deps| && IsPolicySet(deps[i]) :: IdOf(deps[i], ns)
  }

  function Watched(root: Root): set<SetId>
  {
    Named(root.dependencies, root.namespace) +
    (set t, id | 0 <= t < |root.extra| && id in Named(root.extra[t], root.namespace) :: id)
  }

  method GetPolicySetDependencies(root: Root) returns (ids: set<SetId>)
    ensures ids == Watched(root)
  {
    ids := {};
    for i := 0 to |root.dependencies|
      invariant ids == Named(root.dependencies[..i], root.namespace)
    {
      var dep := root.dependencies[i];
      assert root.dependencies[..i + 1] == root.dependencies[..i] + [dep];
      NamedSnoc(root.dependencies[..i], dep, root.namespace);
      if IsPolicySet(dep) {
        ids := ids + {SetId(if dep.namespace == "" then root.namespace else dep.namespace, dep.name)};
      }
    }
    assert root.dependencies[..|root.dependencies|] == root.dependencies;
    ghost var direct := ids;
    for t := 0 to |root.extra|
      invariant ids == direct + set k, id | 0 <= k < t && id in Named(root.extra[k], root.namespace) :: id
    {
      ghost var before := ids;
      var deps := root.extra[t];
      for i := 0 to |deps|
        invariant ids == before + Named(deps[..i], root.namespace)
      {
        assert deps[..i + 1] == deps[..i] + [deps[i]];
        NamedSnoc(deps[..i], deps[i], root.namespace);
        if IsPolicySet(deps[i]) {
          ids := ids + {SetId(if deps[i].namespace == "" then root.namespace else deps[i].namespace, deps[i].name)};
        }
      }
      assert deps[..|deps|] == deps;
    }
  }

  lemma NamedSnoc(deps: seq<Dependency>, d: Dependency, ns: string)
    ensures Named(deps + [d], ns) == Named(deps, ns) + if IsPolicySet(d) then {IdOf(d, ns)} else {}
  {
    var all := deps + [d];
    forall id | id in Named(deps, ns)
      ensures id in Named(all, ns)
    {
      var i :| 0 <= i < |deps| && IsPolicySet(deps[i]) && IdOf(deps[i], ns) == id;
      assert all[i] == deps[i];
    }
    assert all[|deps|] == d;
  }

  /******* What the canonical form says *******/

  /** Lists are canonicalised one dependency after the other. */
  lemma {:induction false} CanonicalConcat(sets: PolicySets, a: seq<Dependency>, b: seq<Dependency>, ns: string)
    ensures Canonical(sets, a + b, ns) == Canonical(sets, a, ns) + Canonical(sets, b, ns)
  {
    if a == [] {
      assert a + b == b;
    } else {
      assert (a + b)[1..] == a[1..] + b;
      CanonicalConcat(sets, a[1..], b, ns);
    }
  }

  lemma CanonicalSingle(sets: PolicySets, d: Dependency, ns: string)
    ensures Canonical(sets, [d], ns) == CanonicalOne(sets, d, ns)
  {
    assert [d][1..] == [];
    assert Canonical(sets, [d][1..], ns) == [];
  }

  /** A Policy dependency becomes one whose name cuts back to the namespace that was meant and the name
      that was given; a dotted name without a namespace is taken as it is. */
  lemma PolicyCanonical(sets: PolicySets, d: Dependency, ns: string)
    requires d.kind == "Policy" && d.apiVersion == "policy.open-cluster-management.io/v1"
    requires '.' !in d.namespace && '.' !in ns
    ensures var r := Canonical(sets, [d], ns);
            && |r| == 1
            && r[0].kind == d.kind && r[0].apiVersion == d.apiVersion && r[0].compliance == d.compliance
            && r[0].namespace == ""
            && if d.namespace == "" && '.' in d.name then r[0].name == d.name
               else Cut(r[0].name) == Some((if d.namespace == "" then ns else d.namespace, d.name))
  {
    CanonicalSingle(sets, d, ns);
    CutJoined(if d.namespace == "" then ns else d.namespace, d.name);
  }

  /** A PolicySet that exists becomes, in order, one Policy dependency for each policy it lists, whose name
      cuts back to the namespace of the set and that policy; the compliance is that of the set. */
  lemma SetCanonical(sets: PolicySets, d: Dependency, ns: string)
    requires d.kind == "PolicySet" && d.apiVersion == "policy.open-cluster-management.io/v1beta1"
    requires '.' !in d.namespace && '.' !in ns
    requires SetId(if d.namespace == "" then ns else d.namespace, d.name) in sets
    ensures var namespace := if d.namespace == "" then ns else d.namespace;
            var policies, r := sets[SetId(namespace, d.name)], Canonical(sets, [d], ns);
            && |r| == |policies|
            && (forall i :: 0 <= i < |r| ==>
                  && r[i].kind == "Policy" && r[i].apiVersion == "policy.open-cluster-management.io/v1"
                  && r[i].namespace == "" && r[i].compliance == d.compliance
                  && Cut(r[i].name) == Some((namespace, policies[i])))
  {
    CanonicalSingle(sets, d, ns);
    var namespace := if d.namespace == "" then ns else d.namespace;
    var policies := sets[SetId(namespace, d.name)];
    forall i | 0 <= i < |policies|
      ensures Cut(Canonical(sets, [d], ns)[i].name) == Some((namespace, policies[i]))
    {
      CutJoined(namespace, policies[i]);
    }
  }

  /** A PolicySet that does not exist is kept with the namespace that was meant. */
  lemma MissingSetCanonical(sets: PolicySets, d: Dependency, ns: string)
    requires d.kind == "PolicySet" && d.apiVersion == "policy.open-cluster-management.io/v1beta1"
    requires SetId(if d.namespace == "" then ns else d.namespace, d.name) !in sets
    ensures Canonical(sets, [d], ns) == [d.(namespace := if d.namespace == "" then ns else d.namespace)]
  {
    CanonicalSingle(sets, d, ns);
  }

  /** Every other kind of dependency is left alone. */
  lemma OtherCanonical(sets: PolicySets, d: Dependency, ns: string)
    requires !(d.kind == "PolicySet" && d.apiVersion == "policy.open-cluster-management.io/v1beta1")
    requires !(d.kind == "Policy" && d.apiVersion == "policy.open-cluster-management.io/v1")
    ensures Canonical(sets, [d], ns) == [d]
  {
    CanonicalSingle(sets, d, ns);
  }

  /******* Canonicalising twice *******/

  /** A dependency that canonicalisation leaves alone. */
  predicate Settled(sets: PolicySets, d: Dependency, ns: string)
  {
    CanonicalOne(sets, d, ns) == [d]
  }

  predicate WellShaped(d: Dependency)
  {
    IsPolicy(d) ==> d.namespace == "" && Dotted(d.name)
  }

  lemma OneSettles(sets: PolicySets, d: Dependency, ns: string, i: nat)
    requires i < |CanonicalOne(sets, d, ns)|
    ensures Settled(sets, CanonicalOne(sets, d, ns)[i], ns) && WellShaped(CanonicalOne(sets, d, ns)[i])
  {
    var e := CanonicalOne(sets, d, ns)[i];
    if IsPolicySet(d) && IdOf(d, ns) in sets {
      assert e.name[|NamespaceOf(d, ns)|] == '.';
    } else if IsPolicySet(d) {
      assert IdOf(e, ns) == IdOf(d, ns);
    } else if IsPolicy(d) && !(d.namespace == "" && Dotted(d.name)) {
      assert e.name[|NamespaceOf(d, ns)|] == '.';
    }
  }

  lemma {:induction false} AllSettle(sets: PolicySets, deps: seq<Dependency>, ns: string)
    ensures forall i :: 0 <= i < |Canonical(sets, deps, ns)| ==>
              Settled(sets, Canonical(sets, deps, ns)[i], ns) && WellShaped(Canonical(sets, deps, ns)[i])
  {
    if deps != [] {
      AllSettle(sets, deps[1..], ns);
      forall i | 0 <= i < |CanonicalOne(sets, deps[0], ns)|
        ensures Settled(sets, CanonicalOne(sets, deps[0], ns)[i], ns) && WellShaped(CanonicalOne(sets, deps[0], ns)[i])
      {
        OneSettles(sets, deps[0], ns, i);
      }
    }
  }

  lemma {:induction false} SettledStays(sets: PolicySets, deps: seq<Dependency>, ns: string)
    requires forall i :: 0 <= i < |deps| ==> Settled(sets, deps[i], ns)
    ensures Canonical(sets, deps, ns) == deps
  {
    if deps != [] {
      SettledStays(sets, deps[1..], ns);
      assert Settled(sets, deps[0], ns);
    }
  }

  /** Canonicalising is idempotent on a fixed snapshot of the PolicySets. */
  lemma CanonicalTwice(sets: PolicySets, deps: seq<Dependency>, ns: string)
    ensures Canonical(sets, Canonical(sets, deps, ns), ns) == Canonical(sets, deps, ns)
  {
    AllSettle(sets, deps, ns);
    SettledStays(sets, Canonical(sets, deps, ns), ns);
  }

  /** Every Policy dependency ends up without a namespace and with a dotted name. */
  lemma PoliciesAreDotted(sets: PolicySets, deps: seq<Dependency>, ns: string, d: Dependency)
    requires d in Canonical(sets, deps, ns) && IsPolicy(d)
    ensures d.namespace == "" && Dotted(d.name)
  {
    AllSettle(sets, deps, ns);
  }

  /******* The watch set *******/

  ghost predicate Agree(a: PolicySets, b: PolicySets, ids: set<SetId>)
  {
    forall id :: id in ids ==> (id in a <==> id in b) && (id in a ==> a[id] == b[id])
  }

  lemma {:induction false} AgreeingLists(a: PolicySets, b: PolicySets, deps: seq<Dependency>, ns: string)
    requires Agree(a, b, Named(deps, ns))
    ensures Canonical(a, deps, ns) == Canonical(b, deps, ns)
  {
    if deps != [] {
      assert IsPolicySet(deps[0]) ==> IdOf(deps[0], ns) in Named(deps, ns);
      assert forall id :: id in Named(deps[1..], ns) ==> id in Named(deps, ns);
      AgreeingLists(a, b, deps[1..], ns);
    }
  }

  /** Snapshots that agree on the watched PolicySets give the same dependencies and extraDependencies. */
  lemma WatchSetCovers(a: PolicySets, b: PolicySets, root: Root)
    requires Agree(a, b, Watched(root))
    ensures ReplicaDependencies(a, root) == ReplicaDependencies(b, root)
  {
    AgreeingLists(a, b, root.dependencies, root.namespace);
    forall i | 0 <= i < |root.extra|
      ensures Canonical(a, root.extra[i], root.namespace) == Canonical(b, root.extra[i], root.namespace)
    {
      assert Named(root.extra[i], root.namespace) <= Watched(root);
      AgreeingLists(a, b, root.extra[i], root.namespace);
    }
    assert ReplicaDependencies(a, root).1 == ReplicaDependencies(b, root).1;
  }

  lemma {:induction false} EmptySetShortens(sets: PolicySets, id: SetId, deps: seq<Dependency>, ns: string)
    ensures |Canonical(sets[id := []], deps, ns)| <= |Canonical(sets - {id}, deps, ns)|
    ensures id in Named(deps, ns) ==> |Canonical(sets[id := []], deps, ns)| < |Canonical(sets - {id}, deps, ns)|
  {
    if deps != [] {
      EmptySetShortens(sets, id, deps[1..], ns);
      if id in Named(deps, ns) && !(IsPolicySet(deps[0]) && IdOf(deps[0], ns) == id) {
        var i :| 0 <= i < |deps| && IsPolicySet(deps[i]) && IdOf(deps[i], ns) == id;
        assert deps[1..][i - 1] == deps[i];
      }
    }
  }

  /** No watched PolicySet is watched in vain: emptying or removing it changes the result. */
  lemma WatchSetIsNeeded(sets: PolicySets, root: Root, id: SetId)
    requires id in Watched(root)
    ensures ReplicaDependencies(sets[id := []], root) != ReplicaDependencies(sets - {id}, root)
  {
    var a, b := sets[id := []], sets - {id};
    EmptySetShortens(sets, id, root.dependencies, root.namespace);
    if id !in Named(root.dependencies, root.namespace) {
      var t :| 0 <= t < |root.extra| && id in Named(root.extra[t], root.namespace);
      EmptySetShortens(sets, id, root.extra[t], root.namespace);
      assert ReplicaDependencies(a, root).1[t] != ReplicaDependencies(b, root).1[t];
    }
  }
}
