/**
Which clusters a root policy is placed on: placement bindings, what they refer to, and the per-cluster
decision of the replicated policy controller (controllers/common/common.go and
controllers/propagator/replicatedpolicy_controller.go).
*/
module Placement {
  import opened Basics
  import opened PolicySets

  const POLICY_GROUP: string := "policy.open-cluster-management.io"
  const RULE_GROUP: string := "apps.open-cluster-management.io"
  const PLACEMENT_GROUP: string := "cluster.open-cluster-management.io"
  const RESTRICTED: string := "restricted"
  const ENFORCE: string := "enforce"

  datatype Subject = Subject(group: string, kind: string, name: string)

  datatype Ref = Ref(group: string, kind: string, name: string)

  datatype Binding = Binding(name: string, ref: Ref, subjects: seq<Subject>, remediation: string, subFilter: string)

  /** A ClusterDecision of the placement API. */
  datatype Choice = Choice(cluster: string, reason: string)

  /** `owner` is the value of the placement label, if the object has one. */
  datatype PlacementDecision = PlacementDecision(owner: Option<string>, choices: seq<Choice>)

  /** The objects in the namespace of the root policy, as the client lists and gets them. */
  datatype Hub = Hub(
    bindings: seq<Binding>,
    policySets: map<string, PolicySet>,
    rules: map<string, seq<string>>,
    placements: set<string>,
    decisions: seq<PlacementDecision>)

  /** No PlacementDecision carries an empty placement label. */
  ghost predicate NoEmptyLabel(hub: Hub)
  {
    forall d :: d in hub.decisions ==> d.owner != Some("")
  }

  /******* strings.EqualFold with "enforce" *******/

  function LowerChar(c: char): char
  {
    if 'A' <= c <= 'Z' then (c as int + 32) as char else c
  }

  function Lower(s: string): string
  {
    seq(|s|, i requires 0 <= i < |s| => LowerChar(s[i]))
  }

  /** None of the letters of "enforce" has a case variant outside ASCII. */
  predicate Enforces(action: string)
  {
    Lower(action) == ENFORCE
  }

  /** The action is "enforce" in any mixture of upper and lower case, and nothing else. */
  lemma EnforcesExactly(action: string)
    ensures Enforces(action) <==>
            |action| == 7 && forall i :: 0 <= i < 7 ==> action[i] == "enforce"[i] || action[i] == "ENFORCE"[i]
  {
    if |action| == 7 {
      forall i | 0 <= i < 7
        ensures LowerChar(action[i]) == "enforce"[i] <==> action[i] == "enforce"[i] || action[i] == "ENFORCE"[i]
      {
        LowerLetter(action[i], "enforce"[i], "ENFORCE"[i]);
      }
    }
  }

  lemma LowerLetter(c: char, lower: char, upper: char)
    requires 'a' <= lower <= 'z' && upper as int == lower as int - 32
    ensures LowerChar(c) == lower <==> c == lower || c == upper
  {
  }

  /******* What a binding refers to *******/

  /** HasValidPlacementRef */
  predicate ValidRef(b: Binding)
  {
    || (b.ref.kind == "PlacementRule" && b.ref.group == RULE_GROUP)
    || (b.ref.kind == "Placement" && b.ref.group == PLACEMENT_GROUP)
  }

  function ClusterNames(choices: seq<Choice>): seq<string>
  {
    seq(|choices|, i requires 0 <= i < |choices| => choices[i].cluster)
  }

  /** The clusters of all PlacementDecisions with the given label, in order. */
  function Labelled(decisions: seq<PlacementDecision>, owner: string): seq<string>
  {
    if decisions == [] then []
    else (if decisions[0].owner == Some(owner) then ClusterNames(decisions[0].choices) else []) +
         Labelled(decisions[1..], owner)
  }

  function Decisions(hub: Hub, b: Binding): seq<string>
  {
    if !ValidRef(b) then []
    else if b.ref.kind == "Placement" then
      if b.ref.name in hub.placements then Labelled(hub.decisions, b.ref.name) else []
    else if b.ref.name in hub.rules then hub.rules[b.ref.name] else []
  }

  lemma {:induction false} LabelledSnoc(decisions: seq<PlacementDecision>, d: PlacementDecision, owner: string)
    ensures Labelled(decisions + [d], owner) ==
            Labelled(decisions, owner) + if d.owner == Some(owner) then ClusterNames(d.choices) else []
  {
    if decisions != [] {
      LabelledSnoc(decisions[1..], d, owner);
      assert (decisions + [d])[1..] == decisions[1..] + [d];
    }
  }

  lemma {:induction false} LabelledMeaning(decisions: seq<PlacementDecision>, owner: string, c: string)
    ensures c in Labelled(decisions, owner) <==>
            exists d :: d in decisions && d.owner == Some(owner) && c in ClusterNames(d.choices)
  {
    if decisions != [] {
      LabelledMeaning(decisions[1..], owner, c);
      assert decisions == [decisions[0]] + decisions[1..];
    }
  }

  method GetDecisions(hub: Hub, b: Binding) returns (clusters: seq<string>)
    ensures clusters == Decisions(hub, b)
  {
    if !ValidRef(b) {
      return [];
    }
    clusters := [];
    if b.ref.kind == "Placement" {
      if b.ref.name !in hub.placements {
        return [];
      }
      for i := 0 to |hub.decisions|
        invariant clusters == Labelled(hub.decisions[..i], b.ref.name)
      {
        var d := hub.decisions[i];
        LabelledSnoc(hub.decisions[..i], d, b.ref.name);
        assert hub.decisions[..i + 1] == hub.decisions[..i] + [d];
        if d.owner == Some(b.ref.name) {
          ghost var before := clusters;
          for k := 0 to |d.choices|
            invariant clusters == before + ClusterNames(d.choices)[..k]
          {
            clusters := clusters + [d.choices[k].cluster];
          }
          assert ClusterNames(d.choices)[..|d.choices|] == ClusterNames(d.choices);
        }
      }
      assert hub.decisions[..|hub.decisions|] == hub.decisions;
    } else if b.ref.name in hub.rules {
      clusters := hub.rules[b.ref.name];
    }
  }

  /******* Whom a binding binds and reaches *******/

  function SetOf(hub: Hub, name: string): Option<PolicySet>
  {
    if name in hub.policySets then Some(hub.policySets[name]) else None
  }

  predicate DirectSubject(s: Subject, policy: string)
  {
    s.group == POLICY_GROUP && s.kind == POLICY_KIND && s.name == policy
  }

  predicate SetSubject(hub: Hub, s: Subject, policy: string)
  {
    s.group == POLICY_GROUP && s.kind == POLICY_SET_KIND && Lists(SetOf(hub, s.name), policy)
  }

  /** The subject names the policy, directly or through a PolicySet. */
  predicate BindsBy(hub: Hub, s: Subject, policy: string)
  {
    DirectSubject(s, policy) || SetSubject(hub, s, policy)
  }

  /** The subject names the policy, and not through a PolicySet that excludes the cluster. */
  predicate ReachesBy(hub: Hub, s: Subject, policy: string, cluster: string)
  {
    || DirectSubject(s, policy)
    || (SetSubject(hub, s, policy) && cluster !in ExcludedClusters(SetOf(hub, s.name), policy))
  }

  ghost predicate Binds(hub: Hub, b: Binding, policy: string)
  {
    exists s :: s in b.subjects && BindsBy(hub, s, policy)
  }

  ghost predicate ReachesPolicy(hub: Hub, b: Binding, policy: string, cluster: string)
  {
    exists s :: s in b.subjects && ReachesBy(hub, s, policy, cluster)
  }

  /** The binding places the policy on the cluster, as far as its subjects and its placement go. */
  ghost predicate Reaches(hub: Hub, b: Binding, policy: string, cluster: string)
  {
    ReachesPolicy(hub, b, policy, cluster) && cluster in Decisions(hub, b)
  }

  /** isSingleClusterInDecisions reads a missing Placement as one with an empty name, whose decisions are
      those with an empty label; GetDecisions returns nothing for it. */
  ghost predicate Misreads(hub: Hub, b: Binding, cluster: string)
  {
    && ValidRef(b) && b.ref.kind == "Placement" && b.ref.name !in hub.placements
    && cluster in Labelled(hub.decisions, "")
  }

  /** What isSingleClusterInDecisions finds. */
  ghost predicate Sees(hub: Hub, b: Binding, policy: string, cluster: string)
  {
    ReachesPolicy(hub, b, policy, cluster) && (cluster in Decisions(hub, b) || Misreads(hub, b, cluster))
  }

  /** It differs from what GetDecisions says exactly when a Placement is misread. */
  lemma SeesExactly(hub: Hub, b: Binding, policy: string, cluster: string)
    ensures Sees(hub, b, policy, cluster) != Reaches(hub, b, policy, cluster) <==>
            ReachesPolicy(hub, b, policy, cluster) && Misreads(hub, b, cluster)
    ensures NoEmptyLabel(hub) ==> !Misreads(hub, b, cluster)
  {
    LabelledMeaning(hub.decisions, "", cluster);
  }

  method IsSingleClusterInDecisions(hub: Hub, b: Binding, policy: string, cluster: string) returns (found: bool)
    ensures found <==> Sees(hub, b, policy, cluster)
  {
    if !ValidRef(b) {
      return false;
    }
    var subjectFound := IsSubject(hub, b, policy, cluster);
    if !subjectFound {
      return false;
    }
    if b.ref.kind == "PlacementRule" {
      var listed := if b.ref.name in hub.rules then hub.rules[b.ref.name] else [];
      for i := 0 to |listed|
        invariant cluster !in listed[..i]
      {
        if listed[i] == cluster {
          return true;
        }
      }
      return false;
    }
    var owner := if b.ref.name in hub.placements then b.ref.name else "";
    found := IsLabelled(hub.decisions, owner, cluster);
    LabelledMeaning(hub.decisions, owner, cluster);
  }

  /** The loop over the subjects. */
  method IsSubject(hub: Hub, b: Binding, policy: string, cluster: string) returns (subjectFound: bool)
    ensures subjectFound <==> ReachesPolicy(hub, b, policy, cluster)
  {
    subjectFound := false;
    for i := 0 to |b.subjects|
      invariant !subjectFound
      invariant forall s :: s in b.subjects[..i] ==> !ReachesBy(hub, s, policy, cluster)
    {
      var s := b.subjects[i];
      if s.group == POLICY_GROUP {
        if s.kind == POLICY_KIND {
          if s.name == policy {
            subjectFound := true;
          }
        } else if s.kind == POLICY_SET_KIND {
          var policySet := SetOf(hub, s.name);
          if Lists(policySet, policy) {
            var excluded := ExcludedClustersForPolicy(policySet, policy);
            if cluster !in excluded {
              subjectFound := true;
            }
          }
        }
      }
      if subjectFound {
        assert s in b.subjects && ReachesBy(hub, s, policy, cluster);
        return;
      }
    }
  }

  /** The nested loops over PlacementDecisions and their clusters. */
  method IsLabelled(decisions: seq<PlacementDecision>, owner: string, cluster: string) returns (found: bool)
    ensures found <==> exists d :: d in decisions && d.owner == Some(owner) && cluster in ClusterNames(d.choices)
  {
    for i := 0 to |decisions|
      invariant forall d :: d in decisions[..i] ==> d.owner != Some(owner) || cluster !in ClusterNames(d.choices)
    {
      var d := decisions[i];
      if d.owner == Some(owner) {
        for k := 0 to |d.choices|
          invariant cluster !in ClusterNames(d.choices)[..k]
        {
          if d.choices[k].cluster == cluster {
            assert ClusterNames(d.choices)[k] == cluster;
            return true;
          }
        }
        assert ClusterNames(d.choices)[..|d.choices|] == ClusterNames(d.choices);
      }
    }
    return false;
  }

  /******* The decision for one cluster *******/

  /** A clusterDecision; an empty cluster means that the policy is not placed. */
  datatype Verdict = Verdict(cluster: string, override: string)

  /** Some unrestricted binding reaches the cluster. */
  ghost predicate Placed(hub: Hub, policy: string, cluster: string)
  {
    exists b :: b in hub.bindings && b.subFilter != RESTRICTED && Reaches(hub, b, policy, cluster)
  }

  /** Some binding, restricted or not, reaches the cluster and overrides the action to enforce. */
  ghost predicate Overridden(hub: Hub, policy: string, cluster: string)
  {
    exists b :: b in hub.bindings && Reaches(hub, b, policy, cluster) && Enforces(b.remediation)
  }

  ghost predicate IsVerdict(hub: Hub, policy: string, cluster: string, v: Verdict)
  {
    && v.cluster == (if Placed(hub, policy, cluster) then cluster else "")
    && (v.override == "" || Enforces(v.override))
    && (Enforces(v.override) <==> Placed(hub, policy, cluster) && Overridden(hub, policy, cluster))
  }

  predicate IsRestricted(b: Binding)
  {
    b.subFilter == RESTRICTED
  }

  /** What a binding that reaches the cluster has to say about it. */
  datatype Vote = Vote(restricted: bool, remediation: string)

  /** The votes of the bindings that reach the cluster, in order. */
  ghost function VotesOf(bs: seq<Binding>, reached: Binding -> bool): seq<Vote>
  {
    if bs == [] then []
    else
      var init, b := bs[..|bs| - 1], bs[|bs| - 1];
      VotesOf(init, reached) + if reached(b) then [Vote(IsRestricted(b), b.remediation)] else []
  }

  ghost function Reaching(hub: Hub, policy: string, cluster: string): Binding -> bool
  {
    b => Reaches(hub, b, policy, cluster)
  }

  ghost function Seeing(hub: Hub, policy: string, cluster: string): Binding -> bool
  {
    b => Sees(hub, b, policy, cluster)
  }

  ghost function Votes(hub: Hub, bs: seq<Binding>, policy: string, cluster: string): seq<Vote>
  {
    VotesOf(bs, Reaching(hub, policy, cluster))
  }

  /** The first overriding action among the restricted, or the unrestricted, votes; empty if there is none. */
  function FirstOverride(votes: seq<Vote>, restricted: bool): string
  {
    if votes == [] then ""
    else
      var init, v := votes[..|votes| - 1], votes[|votes| - 1];
      if FirstOverride(init, restricted) != "" then FirstOverride(init, restricted)
      else if v.restricted == restricted && Enforces(v.remediation) then v.remediation
      else ""
  }

  ghost predicate AnyUnrestricted(votes: seq<Vote>)
  {
    exists v :: v in votes && !v.restricted
  }

  /** The decision, as far as it depends on the votes. */
  ghost function FromVotes(votes: seq<Vote>, cluster: string): Verdict
  {
    if AnyUnrestricted(votes) then
      Verdict(cluster,
        if FirstOverride(votes, false) != "" then FirstOverride(votes, false) else FirstOverride(votes, true))
    else Verdict("", "")
  }

  ghost function Decision(hub: Hub, policy: string, cluster: string): Verdict
  {
    FromVotes(Votes(hub, hub.bindings, policy, cluster), cluster)
  }

  lemma {:induction false} VotesMeaning(bs: seq<Binding>, reached: Binding -> bool, v: Vote)
    ensures v in VotesOf(bs, reached) <==>
            exists b :: b in bs && reached(b) && v == Vote(IsRestricted(b), b.remediation)
  {
    if bs != [] {
      var n := |bs| - 1;
      VotesMeaning(bs[..n], reached, v);
      assert bs == bs[..n] + [bs[n]];
    }
  }

  /** Votes are the same where each binding counts as reaching for both. */
  lemma {:induction false} VotesSame(bs: seq<Binding>, reached: Binding -> bool, other: Binding -> bool)
    requires forall b :: b in bs ==> reached(b) == other(b)
    ensures VotesOf(bs, reached) == VotesOf(bs, other)
  {
    if bs != [] {
      VotesSame(bs[..|bs| - 1], reached, other);
    }
  }

  lemma {:induction false} FirstOverrideMeaning(votes: seq<Vote>, restricted: bool)
    ensures var r := FirstOverride(votes, restricted);
            && (r == "" || Enforces(r))
            && (r != "" <==> exists v :: v in votes && v.restricted == restricted && Enforces(v.remediation))
  {
    if votes != [] {
      var n := |votes| - 1;
      FirstOverrideMeaning(votes[..n], restricted);
      assert votes == votes[..n] + [votes[n]];
    }
  }

  lemma {:induction false} FirstOverridePrefix(votes: seq<Vote>, n: nat, restricted: bool)
    requires n <= |votes| && FirstOverride(votes[..n], restricted) != ""
    ensures FirstOverride(votes, restricted) == FirstOverride(votes[..n], restricted)
  {
    if n < |votes| {
      assert votes[..|votes| - 1][..n] == votes[..n];
      FirstOverridePrefix(votes[..|votes| - 1], n, restricted);
    } else {
      assert votes[..n] == votes;
    }
  }

  lemma {:induction false} VotesPrefix(bs: seq<Binding>, n: nat, reached: Binding -> bool)
    requires n <= |bs|
    ensures VotesOf(bs[..n], reached) <= VotesOf(bs, reached)
  {
    if n < |bs| {
      assert bs[..|bs| - 1][..n] == bs[..n];
      VotesPrefix(bs[..|bs| - 1], n, reached);
    } else {
      assert bs[..n] == bs;
    }
  }

  /** The decision is positive exactly where the policy is placed, and overrides exactly when some
      binding that reaches the cluster does. */
  lemma DecisionMeaning(hub: Hub, policy: string, cluster: string)
    ensures IsVerdict(hub, policy, cluster, Decision(hub, policy, cluster))
  {
    var votes := Votes(hub, hub.bindings, policy, cluster);
    FirstOverrideMeaning(votes, false);
    FirstOverrideMeaning(votes, true);
    VotesPlaced(hub, policy, cluster);
  }

  lemma VotesPlaced(hub: Hub, policy: string, cluster: string)
    ensures var votes := Votes(hub, hub.bindings, policy, cluster);
            && (Placed(hub, policy, cluster) <==> AnyUnrestricted(votes))
            && (Overridden(hub, policy, cluster) <==> exists v :: v in votes && Enforces(v.remediation))
  {
    var votes := Votes(hub, hub.bindings, policy, cluster);
    forall v
      ensures v in votes <==> exists b :: b in hub.bindings && Reaches(hub, b, policy, cluster) &&
                                          v == Vote(IsRestricted(b), b.remediation)
    {
      VotesMeaning(hub.bindings, Reaching(hub, policy, cluster), v);
    }
    forall b | b in hub.bindings && Reaches(hub, b, policy, cluster)
      ensures Vote(IsRestricted(b), b.remediation) in votes
    {
    }
  }

  /** The loop over the unrestricted bindings: whether one reaches the cluster, and the first override. */
  method ScanUnrestricted(hub: Hub, policy: string, cluster: string) returns (found: bool, override: string)
    ensures found <==> AnyUnrestricted(VotesOf(hub.bindings, Seeing(hub, policy, cluster)))
    ensures override == FirstOverride(VotesOf(hub.bindings, Seeing(hub, policy, cluster)), false)
  {
    ghost var sees := Seeing(hub, policy, cluster);
    found := false;
    for i := 0 to |hub.bindings|
      invariant found <==> AnyUnrestricted(VotesOf(hub.bindings[..i], sees))
      invariant FirstOverride(VotesOf(hub.bindings[..i], sees), false) == ""
    {
      var b := hub.bindings[i];
      NextVote(hub.bindings, i, sees);
      if b.subFilter != RESTRICTED {
        var reached := IsSingleClusterInDecisions(hub, b, policy, cluster);
        if reached {
          if Enforces(b.remediation) {
            FirstFound(hub.bindings, i, sees, false);
            return true, b.remediation;
          }
          found := true;
        }
      }
    }
    assert hub.bindings[..|hub.bindings|] == hub.bindings;
    override := "";
  }

  /** The loop over the restricted bindings. */
  method ScanRestricted(hub: Hub, policy: string, cluster: string) returns (override: string)
    ensures override == FirstOverride(VotesOf(hub.bindings, Seeing(hub, policy, cluster)), true)
  {
    ghost var sees := Seeing(hub, policy, cluster);
    for i := 0 to |hub.bindings|
      invariant FirstOverride(VotesOf(hub.bindings[..i], sees), true) == ""
    {
      var b := hub.bindings[i];
      NextVote(hub.bindings, i, sees);
      if b.subFilter == RESTRICTED {
        var reached := IsSingleClusterInDecisions(hub, b, policy, cluster);
        if reached && Enforces(b.remediation) {
          FirstFound(hub.bindings, i, sees, true);
          return b.remediation;
        }
      }
    }
    assert hub.bindings[..|hub.bindings|] == hub.bindings;
    override := "";
  }

  ghost predicate NoMisread(hub: Hub, cluster: string)
  {
    forall b :: b in hub.bindings ==> !Misreads(hub, b, cluster)
  }

  /** singleClusterDecision: the unrestricted bindings first; a restricted one can only add an override. */
  method SingleClusterDecision(hub: Hub, policy: string, cluster: string) returns (v: Verdict)
    ensures v == FromVotes(VotesOf(hub.bindings, Seeing(hub, policy, cluster)), cluster)
    ensures NoMisread(hub, cluster) ==> v == Decision(hub, policy, cluster) && IsVerdict(hub, policy, cluster, v)
  {
    var foundWithoutSubFilter, override := ScanUnrestricted(hub, policy, cluster);
    if override == "" {
      override := ScanRestricted(hub, policy, cluster);
    }
    v := if foundWithoutSubFilter then Verdict(cluster, override) else Verdict("", "");
    if NoMisread(hub, cluster) {
      SeenDecision(hub, policy, cluster);
      DecisionMeaning(hub, policy, cluster);
    }
  }

  lemma SeenDecision(hub: Hub, policy: string, cluster: string)
    requires NoMisread(hub, cluster)
    ensures FromVotes(VotesOf(hub.bindings, Seeing(hub, policy, cluster)), cluster) == Decision(hub, policy, cluster)
  {
    forall b | b in hub.bindings
      ensures Sees(hub, b, policy, cluster) == Reaches(hub, b, policy, cluster)
    {
      SeesExactly(hub, b, policy, cluster);
    }
    VotesSame(hub.bindings, Seeing(hub, policy, cluster), Reaching(hub, policy, cluster));
  }

  /** A misread Placement of an unrestricted binding places the policy on the cluster all the same. */
  lemma MisreadPlaces(hub: Hub, b: Binding, policy: string, cluster: string)
    requires b in hub.bindings && !IsRestricted(b)
    requires ReachesPolicy(hub, b, policy, cluster) && Misreads(hub, b, cluster)
    ensures !Reaches(hub, b, policy, cluster)
    ensures FromVotes(VotesOf(hub.bindings, Seeing(hub, policy, cluster)), cluster).cluster == cluster
  {
    VotesMeaning(hub.bindings, Seeing(hub, policy, cluster), Vote(false, b.remediation));
  }

  lemma VotesNext(bs: seq<Binding>, i: nat, reached: Binding -> bool)
    requires i < |bs|
    ensures var before, after := VotesOf(bs[..i], reached), VotesOf(bs[..i + 1], reached);
            if reached(bs[i]) then after == before + [Vote(IsRestricted(bs[i]), bs[i].remediation)]
            else after == before
  {
    assert bs[..i + 1][..i] == bs[..i];
  }

  lemma OneMore(votes: seq<Vote>, v: Vote)
    ensures AnyUnrestricted(votes + [v]) <==> AnyUnrestricted(votes) || !v.restricted
    ensures forall r :: FirstOverride(votes, r) == "" ==>
              FirstOverride(votes + [v], r) ==
              if v.restricted == r && Enforces(v.remediation) then v.remediation else ""
  {
    assert (votes + [v])[..|votes|] == votes;
    assert forall x :: x in votes + [v] <==> x in votes || x == v;
  }

  /** What the next binding adds. */
  lemma NextVote(bs: seq<Binding>, i: nat, reached: Binding -> bool)
    requires i < |bs|
    ensures var b := bs[i];
            var before, after := VotesOf(bs[..i], reached), VotesOf(bs[..i + 1], reached);
            if reached(b) then
              && (AnyUnrestricted(after) <==> AnyUnrestricted(before) || !IsRestricted(b))
              && (forall r :: FirstOverride(before, r) == "" ==>
                    FirstOverride(after, r) ==
                    if IsRestricted(b) == r && Enforces(b.remediation) then b.remediation else "")
            else after == before
  {
    VotesNext(bs, i, reached);
    OneMore(VotesOf(bs[..i], reached), Vote(IsRestricted(bs[i]), bs[i].remediation));
  }

  lemma FirstFound(bs: seq<Binding>, i: nat, reached: Binding -> bool, restricted: bool)
    requires i < |bs| && reached(bs[i]) && IsRestricted(bs[i]) == restricted && Enforces(bs[i].remediation)
    requires FirstOverride(VotesOf(bs[..i], reached), restricted) == ""
    ensures FirstOverride(VotesOf(bs, reached), restricted) == bs[i].remediation
    ensures !restricted ==> AnyUnrestricted(VotesOf(bs, reached))
  {
    NextVote(bs, i, reached);
    VotesPrefix(bs, i + 1, reached);
    PrefixDecides(VotesOf(bs[..i + 1], reached), VotesOf(bs, reached), restricted);
  }

  lemma PrefixDecides(first: seq<Vote>, votes: seq<Vote>, restricted: bool)
    requires first <= votes
    ensures AnyUnrestricted(first) ==> AnyUnrestricted(votes)
    ensures FirstOverride(first, restricted) != "" ==>
              FirstOverride(votes, restricted) == FirstOverride(first, restricted)
  {
    assert votes[..|first|] == first;
    assert forall v :: v in first ==> v in votes;
    if FirstOverride(first, restricted) != "" {
      FirstOverridePrefix(votes, |first|, restricted);
    }
  }

  /******* The action of the replica *******/

  /** The override is taken only when the root does not enforce already (replication.go, lines 114-120). */
  function ReplicaAction(rootAction: string, v: Verdict): string
  {
    if !Enforces(rootAction) && v.override != "" then v.override else rootAction
  }

  /** A replica enforces exactly when the root does, or the policy is placed there without a
      restriction and some binding that reaches the cluster says so. */
  lemma ReplicaEnforcesExactly(hub: Hub, policy: string, cluster: string, rootAction: string, v: Verdict)
    requires IsVerdict(hub, policy, cluster, v)
    ensures Enforces(ReplicaAction(rootAction, v)) <==>
            Enforces(rootAction) || (Placed(hub, policy, cluster) && Overridden(hub, policy, cluster))
  {
  }

  /** A replica has the action of the root, unless that does not enforce and the decision overrides it. */
  lemma ReplicaActionExactly(hub: Hub, policy: string, cluster: string, rootAction: string)
    ensures var v := Decision(hub, policy, cluster);
            ReplicaAction(rootAction, v) ==
            if !Enforces(rootAction) && Placed(hub, policy, cluster) && Overridden(hub, policy, cluster) then v.override
            else rootAction
  {
    DecisionMeaning(hub, policy, cluster);
  }

  /** The override is that of the first unrestricted vote that enforces, or else of the first restricted one. */
  lemma {:induction false} OverrideIsFirst(votes: seq<Vote>, restricted: bool) returns (k: nat)
    requires FirstOverride(votes, restricted) != ""
    ensures k < |votes| && FirstOverride(votes, restricted) == votes[k].remediation
    ensures votes[k].restricted == restricted && Enforces(votes[k].remediation)
    ensures forall j :: 0 <= j < k ==> votes[j].restricted != restricted || !Enforces(votes[j].remediation)
  {
    var n := |votes| - 1;
    FirstOverrideMeaning(votes[..n], restricted);
    if FirstOverride(votes[..n], restricted) != "" {
      k := OverrideIsFirst(votes[..n], restricted);
    } else {
      k := n;
      assert forall j :: 0 <= j < n ==> votes[j] in votes[..n];
    }
  }

  /** An override is the action of a binding that reaches the cluster and enforces; of a restricted one only
      if no unrestricted one does. */
  lemma OverrideSource(hub: Hub, policy: string, cluster: string) returns (b: Binding)
    requires Decision(hub, policy, cluster).override != ""
    ensures b in hub.bindings && Reaches(hub, b, policy, cluster) && Enforces(b.remediation)
    ensures Decision(hub, policy, cluster).override == b.remediation
    ensures IsRestricted(b) ==>
              forall o :: o in hub.bindings && Reaches(hub, o, policy, cluster) && Enforces(o.remediation) ==>
                IsRestricted(o)
  {
    var votes, reached := Votes(hub, hub.bindings, policy, cluster), Reaching(hub, policy, cluster);
    var restricted := FirstOverride(votes, false) == "";
    var k := OverrideIsFirst(votes, restricted);
    VotesMeaning(hub.bindings, reached, votes[k]);
    assert votes[k] in votes;
    b :| b in hub.bindings && reached(b) && votes[k] == Vote(IsRestricted(b), b.remediation);
    FirstOverrideMeaning(votes, false);
    forall o | restricted && o in hub.bindings && Reaches(hub, o, policy, cluster) && Enforces(o.remediation)
      ensures IsRestricted(o)
    {
      VotesMeaning(hub.bindings, reached, Vote(IsRestricted(o), o.remediation));
    }
  }

  /** The same hub with its bindings listed in another order. */
  ghost predicate Reordered(hub: Hub, other: Hub)
  {
    other == hub.(bindings := other.bindings) && multiset(other.bindings) == multiset(hub.bindings)
  }

  lemma ReorderedReach(hub: Hub, other: Hub, policy: string, cluster: string)
    requires Reordered(hub, other)
    ensures forall b :: b in hub.bindings <==> b in other.bindings
    ensures forall b :: Decisions(hub, b) == Decisions(other, b)
    ensures forall b :: Reaches(hub, b, policy, cluster) <==> Reaches(other, b, policy, cluster)
  {
    assert forall b :: b in hub.bindings <==> b in multiset(hub.bindings);
    assert forall b :: b in other.bindings <==> b in multiset(other.bindings);
    assert forall s :: ReachesBy(hub, s, policy, cluster) <==> ReachesBy(other, s, policy, cluster);
  }

  /** Where the policy is placed, and whether its replica enforces, do not depend on the order in which
      the bindings are listed. */
  lemma VerdictIgnoresOrder(hub: Hub, other: Hub, policy: string, cluster: string, rootAction: string, v: Verdict,
                            w: Verdict)
    requires Reordered(hub, other) && IsVerdict(hub, policy, cluster, v) && IsVerdict(other, policy, cluster, w)
    ensures v.cluster == w.cluster
    ensures Enforces(ReplicaAction(rootAction, v)) <==> Enforces(ReplicaAction(rootAction, w))
  {
    ReorderedReach(hub, other, policy, cluster);
    assert Placed(hub, policy, cluster) <==> Placed(other, policy, cluster);
    assert Overridden(hub, policy, cluster) <==> Overridden(other, policy, cluster);
  }
}
