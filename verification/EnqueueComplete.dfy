/**
Completeness of the event handlers: whenever an event changes the decision for a policy on a cluster,
the replica is put on the work queue.
*/
module EnqueueComplete {
  import opened Basics
  import Ordering
  import opened PolicySets
  import opened Placement
  import opened Enqueue

  /******* Decisions depend on votes *******/

  lemma {:induction false} VotesConcat(bs: seq<Binding>, cs: seq<Binding>, reached: Binding -> bool)
    ensures VotesOf(bs + cs, reached) == VotesOf(bs, reached) + VotesOf(cs, reached)
  {
    if cs == [] {
      assert bs + cs == bs;
    } else {
      var n := |cs| - 1;
      VotesConcat(bs, cs[..n], reached);
      assert (bs + cs)[..|bs + cs| - 1] == bs + cs[..n];
    }
  }

  /** The votes of one binding. */
  ghost function Ballot(hub: Hub, b: Binding, p: string, c: string): seq<Vote>
  {
    if Reaches(hub, b, p, c) then [Vote(IsRestricted(b), b.remediation)] else []
  }

  lemma VotesWith(hub: Hub, pre: seq<Binding>, b: Binding, post: seq<Binding>, p: string, c: string)
    ensures Votes(hub, pre + [b] + post, p, c) == Votes(hub, pre, p, c) + Ballot(hub, b, p, c) + Votes(hub, post, p, c)
  {
    var reached := Reaching(hub, p, c);
    VotesConcat(pre + [b], post, reached);
    VotesConcat(pre, [b], reached);
    assert [b][..0] == [];
    assert VotesOf([b][..0], reached) == [];
  }

  lemma OtherBindings(hub: Hub, bs: seq<Binding>, p: string, c: string)
    ensures forall b :: Reaches(hub.(bindings := bs), b, p, c) <==> Reaches(hub, b, p, c)
  {
    var other := hub.(bindings := bs);
    assert forall s :: ReachesBy(other, s, p, c) <==> ReachesBy(hub, s, p, c);
    assert forall b :: Decisions(other, b) == Decisions(hub, b);
  }

  /** The decision with other bindings, as votes read off the same hub. */
  lemma DecisionOf(hub: Hub, bs: seq<Binding>, p: string, c: string)
    ensures Decision(hub.(bindings := bs), p, c) == FromVotes(Votes(hub, bs, p, c), c)
  {
    OtherBindings(hub, bs, p, c);
    VotesSame(bs, Reaching(hub.(bindings := bs), p, c), Reaching(hub, p, c));
  }

  lemma {:induction false} OverrideWithout(x: seq<Vote>, v: Vote, y: seq<Vote>, restricted: bool)
    requires v.restricted != restricted || !Enforces(v.remediation)
    ensures FirstOverride(x + [v] + y, restricted) == FirstOverride(x + y, restricted)
  {
    if y == [] {
      assert (x + [v] + y)[..|x|] == x && x + y == x;
    } else {
      var n := |y| - 1;
      OverrideWithout(x, v, y[..n], restricted);
      assert (x + [v] + y)[..|x + [v] + y| - 1] == x + [v] + y[..n];
      assert (x + y)[..|x + y| - 1] == x + y[..n];
    }
  }

  /** A restricted vote that does not enforce never makes a difference. */
  lemma IdleVote(x: seq<Vote>, v: Vote, y: seq<Vote>, c: string)
    requires v.restricted && !Enforces(v.remediation)
    ensures FromVotes(x + [v] + y, c) == FromVotes(x + y, c)
  {
    OverrideWithout(x, v, y, false);
    OverrideWithout(x, v, y, true);
    assert forall w :: w in x + [v] + y <==> w in x + y || w == v;
    assert AnyUnrestricted(x + [v] + y) <==> AnyUnrestricted(x + y);
  }

  lemma EmptyBetween(x: seq<Vote>, y: seq<Vote>)
    ensures x + [] + y == x + y
  {
  }

  /** The same for the ballot of one binding, whether it votes or not. */
  lemma IdleBallot(hub: Hub, x: seq<Vote>, b: Binding, y: seq<Vote>, p: string, c: string)
    requires !Reaches(hub, b, p, c) || (IsRestricted(b) && !Enforces(b.remediation))
    ensures FromVotes(x + Ballot(hub, b, p, c) + y, c) == FromVotes(x + y, c)
  {
    if Reaches(hub, b, p, c) {
      IdleVote(x, Vote(true, b.remediation), y, c);
    } else {
      EmptyBetween(x, y);
    }
  }

  /******* Binding events *******/

  lemma ReachIsCopied(hub: Hub, b: Binding, p: string, c: string)
    requires Reaches(hub, b, p, c)
    ensures Copies(hub, b, p, c) > 0
  {
    var s :| s in b.subjects && ReachesBy(hub, s, p, c);
    assert NamedBy(hub, s, p);
  }

  lemma CreateReaches(hub: Hub, pre: seq<Binding>, b: Binding, post: seq<Binding>, p: string, c: string)
    ensures Decision(hub.(bindings := pre + post), p, c) == Decision(hub.(bindings := pre + [b] + post), p, c) ||
            Reaches(hub, b, p, c)
  {
    DecisionOf(hub, pre + post, p, c);
    DecisionOf(hub, pre + [b] + post, p, c);
    VotesConcat(pre, post, Reaching(hub, p, c));
    VotesWith(hub, pre, b, post, p, c);
    if !Reaches(hub, b, p, c) {
      IdleBallot(hub, Votes(hub, pre, p, c), b, Votes(hub, post, p, c), p, c);
    }
  }

  /** The creation of a binding puts every replica whose decision it changes on the queue. */
  lemma CreateIsComplete(hub: Hub, ns: string, pre: seq<Binding>, b: Binding, post: seq<Binding>, p: string, c: string)
    requires Decision(hub.(bindings := pre + post), p, c) != Decision(hub.(bindings := pre + [b] + post), p, c)
    ensures IsReplica(hub, ns, b, Replica(ns, p, c))
  {
    CreateReaches(hub, pre, b, post, p, c);
    ReachIsCopied(hub, b, p, c);
    IsReplicaOf(hub, ns, b, p, c);
  }

  /** Among the other bindings `pre` and `post`, the update from `a` to `b` changes the decision. */
  ghost predicate Changes(hub: Hub, pre: seq<Binding>, a: Binding, b: Binding, post: seq<Binding>, p: string, c: string)
  {
    Decision(hub.(bindings := pre + [a] + post), p, c) != Decision(hub.(bindings := pre + [b] + post), p, c)
  }

  lemma ChangesByVotes(hub: Hub, pre: seq<Binding>, a: Binding, b: Binding, post: seq<Binding>, p: string, c: string)
    ensures var x, y := Votes(hub, pre, p, c), Votes(hub, post, p, c);
            Changes(hub, pre, a, b, post, p, c) <==>
            FromVotes(x + Ballot(hub, a, p, c) + y, c) != FromVotes(x + Ballot(hub, b, p, c) + y, c)
  {
    DecisionOf(hub, pre + [a] + post, p, c);
    DecisionOf(hub, pre + [b] + post, p, c);
    VotesWith(hub, pre, a, post, p, c);
    VotesWith(hub, pre, b, post, p, c);
  }

  /** An update that changes a decision but not the settings makes the binding reach the cluster, or
      stop reaching it, and the binding is one whose vote counts. */
  lemma UpdateReaches(hub: Hub, pre: seq<Binding>, a: Binding, b: Binding, post: seq<Binding>, p: string, c: string)
    requires Changes(hub, pre, a, b, post, p, c)
    ensures Reaches(hub, a, p, c) || Reaches(hub, b, p, c)
    ensures SameSettings(a, b) ==>
              Reaches(hub, a, p, c) != Reaches(hub, b, p, c) && (!IsRestricted(b) || Enforces(b.remediation))
  {
    var x, y := Votes(hub, pre, p, c), Votes(hub, post, p, c);
    ChangesByVotes(hub, pre, a, b, post, p, c);
    if SameSettings(a, b) && IsRestricted(b) && !Enforces(b.remediation) {
      IdleBallot(hub, x, a, y, p, c);
      IdleBallot(hub, x, b, y, p, c);
    }
  }

  lemma ReachingCopies(hub: Hub, a: Binding, b: Binding, p: string, c: string)
    requires Reaches(hub, a, p, c) || Reaches(hub, b, p, c)
    ensures !UpdateAdds(hub, a, b, p, c) <==>
            && SameSettings(a, b)
            && Copies(hub, b, p, c) > 0
            && (Copies(hub, a, p, c) > 0 || Copies(hub, b, p, c) > 1)
  {
    if Reaches(hub, a, p, c) {
      ReachIsCopied(hub, a, p, c);
    } else {
      ReachIsCopied(hub, b, p, c);
    }
  }

  /** With the same settings, reaching or not makes a difference among suitable other bindings. */
  lemma SomeChange(hub: Hub, a: Binding, b: Binding, p: string, c: string) returns (pre: seq<Binding>)
    requires c != "" && SameSettings(a, b) && Reaches(hub, a, p, c) != Reaches(hub, b, p, c)
    requires !IsRestricted(b) || Enforces(b.remediation)
    ensures Changes(hub, pre, a, b, [], p, c)
  {
    if IsRestricted(b) {
      var reaching := if Reaches(hub, a, p, c) then a else b;
      pre := [reaching.(name := b.name + "-unrestricted", subFilter := "", remediation := "")];
      assert Reaches(hub, pre[0], p, c);
      OneVote(hub, pre[0], p, c);
      assert Votes(hub, pre, p, c) == [Vote(false, "")];
      OverrideAfter(b.remediation, c);
    } else {
      pre := [];
      LoneVote(b.remediation, c);
    }
    ChangesByVotes(hub, pre, a, b, [], p, c);
    assert Votes(hub, pre, p, c) + Ballot(hub, a, p, c) + [] == Votes(hub, pre, p, c) + Ballot(hub, a, p, c);
    assert Votes(hub, pre, p, c) + Ballot(hub, b, p, c) + [] == Votes(hub, pre, p, c) + Ballot(hub, b, p, c);
  }

  lemma LoneVote(remediation: string, c: string)
    requires c != ""
    ensures FromVotes([Vote(false, remediation)], c) != FromVotes([], c)
  {
    assert Vote(false, remediation) in [Vote(false, remediation)];
  }

  lemma OverrideAfter(remediation: string, c: string)
    requires Enforces(remediation)
    ensures FromVotes([Vote(false, "")] + [Vote(true, remediation)], c) != FromVotes([Vote(false, "")] + [], c)
  {
    var votes := [Vote(false, "")];
    assert votes[0] in votes && votes[0] in votes + [Vote(true, remediation)] && votes + [] == votes;
    OneMore([], Vote(false, ""));
    OneMore(votes, Vote(true, remediation));
    assert [] + votes == votes;
  }

  /** Some other bindings make the update change the decision for a replica that is not put on the queue. */
  ghost predicate Misses(hub: Hub, a: Binding, b: Binding, p: string, c: string)
  {
    !UpdateAdds(hub, a, b, p, c) && exists pre, post :: Changes(hub, pre, a, b, post, p, c)
  }

  /** An update of a binding can miss a replica exactly when neither the override nor the filter changes,
      the new version selects the replica, so does the old one or the new placement lists the cluster
      twice, and yet only one of them reaches the cluster, with a vote that counts. */
  lemma UpdateMissesExactly(hub: Hub, a: Binding, b: Binding, p: string, c: string)
    requires c != ""
    ensures Misses(hub, a, b, p, c) <==>
            && SameSettings(a, b)
            && Copies(hub, b, p, c) > 0
            && (Copies(hub, a, p, c) > 0 || Copies(hub, b, p, c) > 1)
            && Reaches(hub, a, p, c) != Reaches(hub, b, p, c)
            && (!IsRestricted(b) || Enforces(b.remediation))
  {
    if pre, post :| Changes(hub, pre, a, b, post, p, c) {
      UpdateReaches(hub, pre, a, b, post, p, c);
    }
    if Reaches(hub, a, p, c) || Reaches(hub, b, p, c) {
      ReachingCopies(hub, a, b, p, c);
    }
    if SameSettings(a, b) && Reaches(hub, a, p, c) != Reaches(hub, b, p, c) &&
       (!IsRestricted(b) || Enforces(b.remediation)) {
      var pre := SomeChange(hub, a, b, p, c);
    }
  }

  /** No PolicySet takes the cluster away from the policy. */
  ghost predicate NotExcluded(hub: Hub, p: string, c: string)
  {
    forall n :: n in hub.policySets ==> !Excludes(hub.policySets[n], p, c)
  }

  lemma CopiedReaches(hub: Hub, b: Binding, p: string, c: string)
    requires p != "" && NotExcluded(hub, p, c) && Copies(hub, b, p, c) > 0
    ensures Reaches(hub, b, p, c)
  {
    var s :| s in b.subjects && NamedBy(hub, s, p);
    ExcludedClustersMeaning(SetOf(hub, s.name), p);
    assert ReachesBy(hub, s, p, c);
  }

  /** Where no PolicySet excludes the cluster and the new placement lists no cluster twice, an update of a
      binding puts every replica whose decision it changes on the queue. */
  lemma UpdateIsComplete(hub: Hub, pre: seq<Binding>, a: Binding, b: Binding, post: seq<Binding>, p: string, c: string)
    requires p != "" && NotExcluded(hub, p, c) && Distinct(Decisions(hub, b))
    requires Changes(hub, pre, a, b, post, p, c)
    ensures UpdateAdds(hub, a, b, p, c)
  {
    UpdateReaches(hub, pre, a, b, post, p, c);
    ReachingCopies(hub, a, b, p, c);
    Ordering.DistinctOnce(Decisions(hub, b), c);
    if Copies(hub, a, p, c) > 0 && Copies(hub, b, p, c) > 0 {
      CopiedReaches(hub, a, p, c);
      CopiedReaches(hub, b, p, c);
    }
  }

  /******* An update that is missed *******/

  const VIA_SET: Subject := Subject(POLICY_GROUP, POLICY_SET_KIND, "set")
  const POLICY_ITSELF: Subject := Subject(POLICY_GROUP, POLICY_KIND, "p")

  function Bound(subjects: seq<Subject>): Binding
  {
    Binding("b", Ref(RULE_GROUP, "PlacementRule", "rule"), subjects, "", "")
  }

  /** A PolicySet with policy p that excludes its only cluster c. */
  function ExcludingHub(): Hub
  {
    Hub([], map["set" := PolicySet(["p"], [Exclusion("p", "", ["c"])])], map["rule" := ["c"]], {}, [])
  }

  lemma ExcludingHubFacts(hub: Hub, a: Binding, b: Binding)
    requires hub == ExcludingHub() && a == Bound([VIA_SET]) && b == Bound([VIA_SET, POLICY_ITSELF])
    ensures Decisions(hub, a) == Decisions(hub, b) == ["c"]
    ensures Names(hub, a, "p") && Names(hub, b, "p")
    ensures !Reaches(hub, a, "p", "c") && Reaches(hub, b, "p", "c")
  {
    var policySet := hub.policySets["set"];
    assert "p" in policySet.policies;
    assert NamedBy(hub, a.subjects[0], "p") && NamedBy(hub, b.subjects[0], "p");
    assert policySet.exclusions[0].policyName == "p" && "c" in policySet.exclusions[0].clusterNames;
    ExcludedClustersMeaning(Some(policySet), "p");
    assert ReachesBy(hub, b.subjects[1], "p", "c");
  }

  /** When a binding to an excluding PolicySet also gets the policy itself as a subject, the policy becomes
      placed on the excluded cluster, and nothing is put on the queue. */
  lemma ExclusionIsMissed(hub: Hub, a: Binding, b: Binding)
    requires hub == ExcludingHub() && a == Bound([VIA_SET]) && b == Bound([VIA_SET, POLICY_ITSELF])
    ensures Decision(hub.(bindings := [a]), "p", "c").cluster == ""
    ensures Decision(hub.(bindings := [b]), "p", "c").cluster == "c"
    ensures forall p, c :: !UpdateAdds(hub, a, b, p, c)
  {
    ExcludingHubFacts(hub, a, b);
    DecisionOf(hub, [a], "p", "c");
    DecisionOf(hub, [b], "p", "c");
    OneVote(hub, a, "p", "c");
    OneVote(hub, b, "p", "c");
    forall p, c
      ensures !UpdateAdds(hub, a, b, p, c)
    {
      ExcludingCopies(hub, a, b, p, c);
    }
  }

  lemma OneVote(hub: Hub, b: Binding, p: string, c: string)
    ensures Votes(hub, [b], p, c) == Ballot(hub, b, p, c)
  {
    VotesWith(hub, [], b, [], p, c);
    assert [] + [b] + [] == [b];
  }

  lemma ExcludingCopies(hub: Hub, a: Binding, b: Binding, p: string, c: string)
    requires hub == ExcludingHub() && a == Bound([VIA_SET]) && b == Bound([VIA_SET, POLICY_ITSELF])
    ensures Copies(hub, a, p, c) == Copies(hub, b, p, c)
  {
    ExcludingHubFacts(hub, a, b);
    if Names(hub, b, p) {
      var s :| s in b.subjects && NamedBy(hub, s, p);
      assert p == "p";
    }
    if Names(hub, a, p) {
      var s :| s in a.subjects && NamedBy(hub, s, p);
      assert p == "p";
    }
  }

  /******* Decision events *******/

  /** Among the other PlacementDecisions, the update from `a` to `b` changes the decision. */
  ghost predicate DecisionChanges(hub: Hub, pre: seq<PlacementDecision>, a: PlacementDecision, b: PlacementDecision,
                                  post: seq<PlacementDecision>, p: string, c: string)
  {
    Decision(hub.(decisions := pre + [a] + post), p, c) != Decision(hub.(decisions := pre + [b] + post), p, c)
  }

  /** One more PlacementDecision adds its clusters. */
  lemma LabelledAddition(pre: seq<PlacementDecision>, d: PlacementDecision, post: seq<PlacementDecision>,
                         owner: string, c: string)
    ensures c in Labelled(pre + [d] + post, owner) <==>
            c in Labelled(pre + post, owner) || (d.owner == Some(owner) && c in ClusterNames(d.choices))
  {
    LabelledMeaning(pre + post, owner, c);
    LabelledMeaning(pre + [d] + post, owner, c);
    assert forall x :: x in pre + post <==> x in pre || x in post;
    assert forall x :: x in pre + [d] + post <==> x in pre || x == d || x in post;
  }

  lemma LabelledChange(pre: seq<PlacementDecision>, a: PlacementDecision, b: PlacementDecision,
                       post: seq<PlacementDecision>, owner: string, c: string)
    requires a.owner == b.owner
    requires (c in Labelled(pre + [a] + post, owner)) != (c in Labelled(pre + [b] + post, owner))
    ensures a.owner == Some(owner) && (c in ClusterNames(a.choices)) != (c in ClusterNames(b.choices))
    ensures c !in Labelled(pre + post, owner)
  {
    LabelledAddition(pre, a, post, owner, c);
    LabelledAddition(pre, b, post, owner, c);
  }

  /** Some binding of the policy reaches the cluster before and not after, or after and not before. */
  lemma SomeReachChanges(hub: Hub, ds: seq<PlacementDecision>, es: seq<PlacementDecision>, p: string, c: string)
    returns (x: Binding)
    requires Decision(hub.(decisions := ds), p, c) != Decision(hub.(decisions := es), p, c)
    ensures x in hub.bindings && Binds(hub, x, p)
    ensures (c in Decisions(hub.(decisions := ds), x)) != (c in Decisions(hub.(decisions := es), x))
  {
    var before, after := hub.(decisions := ds), hub.(decisions := es);
    if forall b :: b in hub.bindings ==> (Reaches(before, b, p, c) <==> Reaches(after, b, p, c)) {
      VotesSame(hub.bindings, Reaching(before, p, c), Reaching(after, p, c));
      assert false;
    }
    x :| x in hub.bindings && Reaches(before, x, p, c) != Reaches(after, x, p, c);
    assert forall s :: ReachesBy(before, s, p, c) <==> ReachesBy(after, s, p, c);
    var s :| s in x.subjects && ReachesBy(before, s, p, c);
    assert BindsBy(hub, s, p);
  }

  lemma BindsNames(hub: Hub, b: Binding, p: string)
    requires Binds(hub, b, p)
    ensures Names(hub, b, p)
  {
    var s :| s in b.subjects && BindsBy(hub, s, p);
    assert NamedBy(hub, s, p);
  }

  /** Every choice of the cluster is repeated. */
  ghost predicate OnlyRepeated(choices: seq<Choice>, c: string)
  {
    forall ch: Choice :: ch.cluster == c && ch in choices ==> multiset(choices)[ch] > 1
  }

  lemma AffectedChoice(a: seq<Choice>, b: seq<Choice>, c: string)
    requires (c in ClusterNames(a)) != (c in ClusterNames(b))
    ensures (exists ch: Choice :: ch.cluster == c && Tally(b, a, ch) == 1) <==>
            c in ClusterNames(b) || !OnlyRepeated(a, c)
  {
    ClusterNamesHave(a, c);
    ClusterNamesHave(b, c);
    assert forall ch :: ch in a <==> multiset(a)[ch] > 0;
    if c in ClusterNames(b) {
      var ch :| ch in b && ch.cluster == c;
      assert Tally(b, a, ch) == 1;
    } else if !OnlyRepeated(a, c) {
      var ch: Choice :| ch.cluster == c && ch in a && multiset(a)[ch] <= 1;
      assert Tally(b, a, ch) == 1;
    }
  }

  lemma ChangedLabel(hub: Hub, pre: seq<PlacementDecision>, a: PlacementDecision, b: PlacementDecision,
                     post: seq<PlacementDecision>, p: string, c: string)
    requires a.owner == b.owner && DecisionChanges(hub, pre, a, b, post, p, c)
    ensures a.owner.Some? && a.owner.value in hub.placements && c !in Labelled(pre + post, a.owner.value)
    ensures (c in ClusterNames(a.choices)) != (c in ClusterNames(b.choices))
    ensures IsRequested(hub, PlacementRef(b.owner), p)
  {
    var x := SomeReachChanges(hub, pre + [a] + post, pre + [b] + post, p, c);
    BindsNames(hub, x, p);
    LabelledChange(pre, a, b, post, x.ref.name, c);
    assert x.ref == PlacementRef(b.owner);
  }

  /** What an update that keeps the label and changes a decision tells about the two versions. */
  lemma ChangedChoice(hub: Hub, pre: seq<PlacementDecision>, a: PlacementDecision, b: PlacementDecision,
                      post: seq<PlacementDecision>, p: string, c: string)
    requires a.owner == b.owner != Some("") && DecisionChanges(hub, pre, a, b, post, p, c)
    ensures a.owner.Some? && a.owner.value in hub.placements && c !in Labelled(pre + post, a.owner.value)
    ensures (c in ClusterNames(a.choices)) != (c in ClusterNames(b.choices))
    ensures !DecisionAdds(hub, a, b, p, c) <==> c !in ClusterNames(b.choices) && OnlyRepeated(a.choices, c)
  {
    ChangedLabel(hub, pre, a, b, post, p, c);
    AffectedChoice(a.choices, b.choices, c);
  }

  /** A binding of the policy itself to a placement. */
  function DirectBinding(owner: string, p: string): Binding
  {
    Binding("direct", PlacementRef(Some(owner)), [Subject(POLICY_GROUP, POLICY_KIND, p)], "", "")
  }

  lemma DirectDecision(hub: Hub, owner: string, p: string, c: string)
    requires owner in hub.placements && c != ""
    ensures var h := hub.(bindings := [DirectBinding(owner, p)]);
            Decision(h, p, c).cluster == if c in Labelled(hub.decisions, owner) then c else ""
  {
    var b := DirectBinding(owner, p);
    assert b.subjects[0] in b.subjects && ReachesBy(hub, b.subjects[0], p, c);
    DecisionOf(hub, [b], p, c);
    OneVote(hub, b, p, c);
    LoneVote("", c);
  }

  lemma DirectChanges(hub: Hub, pre: seq<PlacementDecision>, a: PlacementDecision, b: PlacementDecision,
                      post: seq<PlacementDecision>, owner: string, p: string, c: string)
    requires a.owner == b.owner == Some(owner) && owner in hub.placements && c != ""
    requires c in ClusterNames(a.choices) && c !in ClusterNames(b.choices) && c !in Labelled(pre + post, owner)
    ensures DecisionChanges(hub.(bindings := [DirectBinding(owner, p)]), pre, a, b, post, p, c)
  {
    LabelledAddition(pre, a, post, owner, c);
    LabelledAddition(pre, b, post, owner, c);
    DirectDecision(hub.(decisions := pre + [a] + post), owner, p, c);
    DirectDecision(hub.(decisions := pre + [b] + post), owner, p, c);
    var bs := [DirectBinding(owner, p)];
    assert hub.(bindings := bs).(decisions := pre + [a] + post) == hub.(decisions := pre + [a] + post).(bindings := bs);
    assert hub.(bindings := bs).(decisions := pre + [b] + post) == hub.(decisions := pre + [b] + post).(bindings := bs);
  }

  /** With some bindings in the namespace, the update changes the decision for a replica that is not put on
      the queue. */
  ghost predicate DecisionMisses(hub: Hub, pre: seq<PlacementDecision>, a: PlacementDecision, b: PlacementDecision,
                                 post: seq<PlacementDecision>, p: string, c: string)
  {
    exists bs :: var h := hub.(bindings := bs);
                 DecisionChanges(h, pre, a, b, post, p, c) && !DecisionAdds(h, a, b, p, c)
  }

  /** An update of a PlacementDecision that keeps its label can miss a replica exactly when its Placement
      exists, the cluster is gone from it and is in no other decision of that Placement, and it had been
      listed by repeated choices only. */
  lemma DecisionUpdateMissesExactly(hub: Hub, pre: seq<PlacementDecision>, a: PlacementDecision, b: PlacementDecision,
                                    post: seq<PlacementDecision>, p: string, c: string)
    requires a.owner == b.owner != Some("") && c != ""
    ensures DecisionMisses(hub, pre, a, b, post, p, c) <==>
            && a.owner.Some? && a.owner.value in hub.placements
            && c in ClusterNames(a.choices) && c !in ClusterNames(b.choices)
            && c !in Labelled(pre + post, a.owner.value)
            && OnlyRepeated(a.choices, c)
  {
    if DecisionMisses(hub, pre, a, b, post, p, c) {
      var bs :| var h := hub.(bindings := bs);
                DecisionChanges(h, pre, a, b, post, p, c) && !DecisionAdds(h, a, b, p, c);
      ChangedChoice(hub.(bindings := bs), pre, a, b, post, p, c);
    } else if a.owner.Some? && a.owner.value in hub.placements &&
              c in ClusterNames(a.choices) && c !in ClusterNames(b.choices) &&
              c !in Labelled(pre + post, a.owner.value) {
      var h := hub.(bindings := [DirectBinding(a.owner.value, p)]);
      DirectChanges(hub, pre, a, b, post, a.owner.value, p, c);
      ChangedChoice(h, pre, a, b, post, p, c);
    }
  }

  /** With no choice repeated in the old version, every replica whose decision changes is put on the queue. */
  lemma DecisionUpdateIsComplete(hub: Hub, pre: seq<PlacementDecision>, a: PlacementDecision, b: PlacementDecision,
                                 post: seq<PlacementDecision>, p: string, c: string)
    requires a.owner == b.owner != Some("") && Distinct(a.choices)
    requires DecisionChanges(hub, pre, a, b, post, p, c)
    ensures DecisionAdds(hub, a, b, p, c)
  {
    ChangedChoice(hub, pre, a, b, post, p, c);
    ClusterNamesHave(a.choices, c);
    if ch :| ch in a.choices && ch.cluster == c {
      Ordering.DistinctOnce(a.choices, ch);
    }
  }

  /** The creation or deletion of a PlacementDecision puts every replica whose decision it changes on the queue. */
  lemma DecisionAppearsIsComplete(hub: Hub, pre: seq<PlacementDecision>, d: PlacementDecision,
                                  post: seq<PlacementDecision>, p: string, c: string)
    requires d.owner != Some("")
    requires Decision(hub.(decisions := pre + post), p, c) != Decision(hub.(decisions := pre + [d] + post), p, c)
    ensures DecisionSelects(hub, d, p, c)
  {
    var x := SomeReachChanges(hub, pre + post, pre + [d] + post, p, c);
    BindsNames(hub, x, p);
    LabelledAddition(pre, d, post, x.ref.name, c);
    assert x.ref == PlacementRef(d.owner);
  }

  /** Nothing else is put on the queue: a request of an update is for a policy that a binding of this very
      Placement names, on a cluster that only one of the two versions lists in the same way. */
  lemma DecisionUpdateIsSound(hub: Hub, a: PlacementDecision, b: PlacementDecision, p: string, c: string)
    requires DecisionAdds(hub, a, b, p, c)
    ensures b.owner.Some? && b.owner.value != ""
    ensures exists x :: x in hub.bindings && x.ref.kind == "Placement" && x.ref.name == b.owner.value &&
                        x.ref.group == "cluster.open-cluster-management.io" && Names(hub, x, p)
    ensures exists ch: Choice :: ch.cluster == c && (ch in a.choices) != (ch in b.choices)
  {
    var ch: Choice :| ch.cluster == c && Tally(b.choices, a.choices, ch) == 1;
    assert ch in a.choices <==> multiset(a.choices)[ch] > 0;
  }

  /** A binding names exactly the policies it binds. */
  lemma NamesExactly(hub: Hub, b: Binding, p: string)
    requires p != ""
    ensures Names(hub, b, p) <==> Binds(hub, b, p)
  {
    assert forall s :: NamedBy(hub, s, p) <==> BindsBy(hub, s, p);
  }
}
