/**
When the remaining bindings in the status of a root policy depend on the order in which its placement
bindings are listed (computeRemainingBindings in controllers/common/common.go, on the placement list of
GetClusterDecisions in common_status_update.go).
*/
module RemainingOrder {
  import opened Ordering
  import opened Placement
  import opened DecisionSets
  import opened PlacementOrder
  import opened RootStatus

  ghost function ClustersOf(hub: Hub, policy: string, b: Binding): seq<string>
  {
    Clusters(hub, b, policy, false)
  }

  ghost predicate Overlap(hub: Hub, policy: string, a: Binding, b: Binding)
  {
    !Disjoint(ClustersOf(hub, policy, a), ClustersOf(hub, policy, b))
  }

  /** One of the binding's clusters is listed by an unrestricted binding, or it lists a cluster twice. */
  ghost predicate SelfFound(hub: Hub, policy: string, b: Binding)
  {
    Found(ClustersOf(hub, policy, b), Base(hub, policy, false))
  }

  /** The binding's placements would take the cluster away from the policy, if they are listed. */
  ghost predicate MayExclude(hub: Hub, policy: string, b: Binding, c: string)
  {
    ValidRef(b) && SetExcludes(hub, b, policy, c)
  }

  /******* Listed placements *******/

  /** With the bindings in the order `bs`, the placements of `b` are listed. */
  ghost predicate Shows(hub: Hub, policy: string, bs: seq<Binding>, b: Binding)
  {
    b in bs &&
    (!IsRestricted(b) ||
     exists k: nat :: k < |bs| && bs[k] == b && ListedAt(hub, policy, false, bs, Base(hub, policy, false), k))
  }

  lemma ShowsIsShown(hub: Hub, policy: string, b: Binding)
    requires Shows(hub, policy, hub.bindings, b)
    ensures Shown(hub, policy, false, b)
  {
    if IsRestricted(b) {
      var base := Base(hub, policy, false);
      var k: nat :| k < |hub.bindings| && hub.bindings[k] == b && ListedAt(hub, policy, false, hub.bindings, base, k);
      forall e | e in Entries(hub, b, policy)
        ensures e in Placements(hub, policy, false)
      {
        RestrictedHas(hub, policy, false, hub.bindings, base, e, k);
        assert e in multiset(Placements(hub, policy, false));
      }
    } else {
      UnrestrictedIsShown(hub, policy, false, b);
    }
  }

  lemma ShownShows(hub: Hub, policy: string, b: Binding, e: Entry)
    requires WellNamed(hub) && b in hub.bindings && e in Placements(hub, policy, false) && e.binding == b.name
    ensures Shows(hub, policy, hub.bindings, b)
    ensures e in Entries(hub, b, policy)
  {
    var base := Base(hub, policy, false);
    assert e in multiset(Placements(hub, policy, false));
    if e in Unrestricted(hub, policy, hub.bindings) {
      var o := UnrestrictedFrom(hub, policy, hub.bindings, e);
      EntryOrigin(hub, o, policy, e);
      SameBinding(hub.bindings, o, b);
    } else {
      var k := RestrictedFrom(hub, policy, false, hub.bindings, base, e);
      EntryOrigin(hub, hub.bindings[k], policy, e);
      SameBinding(hub.bindings, hub.bindings[k], b);
    }
  }

  /** A listed placement excludes the cluster under the binding's name exactly when it excludes it and is listed. */
  lemma ExcludedExactly(hub: Hub, policy: string, b: Binding, c: string)
    requires WellNamed(hub) && b in hub.bindings
    ensures ExcludedVia(Placements(hub, policy, false), c, b.name) <==>
            MayExclude(hub, policy, b, c) && Shows(hub, policy, hub.bindings, b)
  {
    var p := Placements(hub, policy, false);
    if ExcludedVia(p, c, b.name) {
      var e :| e in p && e.policySet != "" && e.binding == b.name && c in e.exclusions;
      ShownShows(hub, policy, b, e);
      ExcludedOrigin(hub, policy, b, e, c);
    }
    if MayExclude(hub, policy, b, c) && Shows(hub, policy, hub.bindings, b) {
      ShowsIsShown(hub, policy, b);
      ShownExclusion(hub, policy, false, b, c);
    }
  }

  /******* One hub, many orders *******/

  ghost predicate IsOrder(hub: Hub, bs: seq<Binding>)
  {
    multiset(bs) == multiset(hub.bindings)
  }

  lemma OrderMembers(hub: Hub, bs: seq<Binding>)
    requires IsOrder(hub, bs)
    ensures forall b :: b in bs <==> b in hub.bindings
  {
    assert forall b :: b in bs <==> b in multiset(bs);
    assert forall b :: b in hub.bindings <==> b in multiset(hub.bindings);
  }

  /** What other listings of the bindings show can be read off the hub at hand. */
  lemma ShowsInOrder(hub: Hub, policy: string, bs: seq<Binding>, b: Binding)
    requires IsOrder(hub, bs)
    ensures var other := hub.(bindings := bs);
            Shows(other, policy, bs, b) <==> Shows(hub, policy, bs, b)
  {
    var other := hub.(bindings := bs);
    SameEntries(hub, other, policy);
    SameCovered(hub, other, policy, false, false);
    forall k: nat | k < |bs|
      ensures Covered(other, policy, false, bs[..k], true) == Covered(hub, policy, false, bs[..k], true)
    {
    }
  }

  lemma ExcludesInOrder(hub: Hub, policy: string, bs: seq<Binding>, b: Binding, c: string)
    ensures MayExclude(hub.(bindings := bs), policy, b, c) <==> MayExclude(hub, policy, b, c)
  {
    var other := hub.(bindings := bs);
    assert forall s :: SetSubject(other, s, policy) <==> SetSubject(hub, s, policy);
    assert forall n :: SetOf(other, n) == SetOf(hub, n);
  }

  /** With the bindings in the order `bs`, some listed placement of the binding excludes the cluster. */
  ghost predicate Hit(hub: Hub, policy: string, c: string, bs: seq<Binding>, b: Binding)
  {
    MayExclude(hub, policy, b, c) && Shows(hub, policy, bs, b)
  }

  ghost predicate SomeHit(hub: Hub, policy: string, c: string, bs: seq<Binding>)
  {
    exists b :: b in hub.bindings && Hit(hub, policy, c, bs, b)
  }

  /** With the bindings in the order `bs`, the binding is reported as remaining for the cluster. */
  ghost predicate Reported(hub: Hub, policy: string, c: string, bs: seq<Binding>, b: Binding)
  {
    ListsCluster(hub, b, policy, c) && !Hit(hub, policy, c, bs, b) && SomeHit(hub, policy, c, bs)
  }

  lemma HitExactly(hub: Hub, policy: string, c: string, bs: seq<Binding>, b: Binding)
    requires WellNamed(hub) && IsOrder(hub, bs) && b in hub.bindings
    ensures ExcludedVia(Placements(hub.(bindings := bs), policy, false), c, b.name) <==> Hit(hub, policy, c, bs, b)
  {
    var other := hub.(bindings := bs);
    OrderMembers(hub, bs);
    UniqueInAnyOrder(hub.bindings, bs);
    ExcludedExactly(other, policy, b, c);
    ShowsInOrder(hub, policy, bs, b);
    ExcludesInOrder(hub, policy, bs, b, c);
  }

  lemma SomeHitExactly(hub: Hub, policy: string, c: string, bs: seq<Binding>)
    requires WellNamed(hub) && IsOrder(hub, bs)
    ensures SomeExcluded(Placements(hub.(bindings := bs), policy, false), c) <==> SomeHit(hub, policy, c, bs)
  {
    var other := hub.(bindings := bs);
    var p := Placements(other, policy, false);
    OrderMembers(hub, bs);
    UniqueInAnyOrder(hub.bindings, bs);
    if SomeExcluded(p, c) {
      var n :| ExcludedVia(p, c, n);
      var e :| e in p && e.policySet != "" && e.binding == n && c in e.exclusions;
      var b := PlacementsOrigin(other, policy, false, e);
      EntryOrigin(other, b, policy, e);
      HitExactly(hub, policy, c, bs, b);
    }
    if SomeHit(hub, policy, c, bs) {
      var b :| b in hub.bindings && Hit(hub, policy, c, bs, b);
      HitExactly(hub, policy, c, bs, b);
    }
  }

  /** The report of the controller, for any order of the bindings. */
  lemma ReportedExactly(hub: Hub, policy: string, c: string, bs: seq<Binding>, b: Binding, d: DecisionSet,
                        r: DecisionSet)
    requires WellNamed(hub) && IsOrder(hub, bs) && b in hub.bindings
    requires IsDecisionSet(hub, policy, false, d)
    requires IsReport(false, Placements(hub.(bindings := bs), policy, false), d, r)
    ensures b.name in At(r, c) <==> Reported(hub, policy, c, bs, b)
  {
    ReportAt(Placements(hub.(bindings := bs), policy, false), d, r, c, b.name);
    NameInDecisionSet(hub, policy, false, d, b, c);
    HitExactly(hub, policy, c, bs, b);
    SomeHitExactly(hub, policy, c, bs);
  }

  /******* What the order decides *******/

  /** Whether the binding's placements are listed depends on the order. */
  ghost predicate Wavers(hub: Hub, policy: string, b: Binding)
  {
    b in hub.bindings && IsRestricted(b) && !SettledFor(hub, policy, false, b)
  }

  lemma Partner(hub: Hub, policy: string, b: Binding) returns (o: Binding)
    requires Wavers(hub, policy, b)
    ensures o in hub.bindings && IsRestricted(o) && o != b && Overlap(hub, policy, b, o)
    ensures !SelfFound(hub, policy, b)
  {
    o :| o in hub.bindings && IsRestricted(o) && o != b &&
         !Disjoint(Clusters(hub, b, policy, false), Clusters(hub, o, policy, false));
  }

  lemma SameIndex(bs: seq<Binding>, i: nat, j: nat)
    requires UniqueNames(bs) && i < |bs| && j < |bs| && bs[i] == bs[j]
    ensures i == j
  {
    assert !(i < j) && !(j < i);
  }

  /** A binding is listed when a restricted binding before it shares a cluster with it. */
  lemma LaterShows(hub: Hub, policy: string, bs: seq<Binding>, i: nat, j: nat)
    requires i < j < |bs| && IsRestricted(bs[i]) && IsRestricted(bs[j]) && Overlap(hub, policy, bs[i], bs[j])
    ensures Shows(hub, policy, bs, bs[j])
  {
    var c :| c in ClustersOf(hub, policy, bs[i]) && c in ClustersOf(hub, policy, bs[j]);
    assert bs[i] in bs[..j];
    assert c in Covered(hub, policy, false, bs[..j], true);
    MoreFound(ClustersOf(hub, policy, bs[j]), c,
      Base(hub, policy, false) + Covered(hub, policy, false, bs[..j], true));
    assert ListedAt(hub, policy, false, bs, Base(hub, policy, false), j);
  }

  /** It is not listed when it shares no cluster with an unrestricted binding or a restricted one before it. */
  lemma ApartHides(hub: Hub, policy: string, bs: seq<Binding>, j: nat)
    requires UniqueNames(bs) && j < |bs| && IsRestricted(bs[j]) && !SelfFound(hub, policy, bs[j])
    requires forall i :: 0 <= i < j && IsRestricted(bs[i]) ==> !Overlap(hub, policy, bs[j], bs[i])
    ensures !Shows(hub, policy, bs, bs[j])
  {
    var clusters, base := ClustersOf(hub, policy, bs[j]), Base(hub, policy, false);
    assert forall c :: c in clusters ==> c !in Covered(hub, policy, false, bs[..j], true);
    assert !Found(clusters, base + Covered(hub, policy, false, bs[..j], true));
    forall k: nat | k < |bs| && bs[k] == bs[j]
      ensures !ListedAt(hub, policy, false, bs, base, k)
    {
      SameIndex(bs, k, j);
    }
  }

  lemma FoundShows(hub: Hub, policy: string, bs: seq<Binding>, j: nat)
    requires j < |bs| && SelfFound(hub, policy, bs[j])
    ensures Shows(hub, policy, bs, bs[j])
  {
    if IsRestricted(bs[j]) {
      var clusters, base := ClustersOf(hub, policy, bs[j]), Base(hub, policy, false);
      var k :| 0 <= k < |clusters| && (clusters[k] in base || clusters[k] in clusters[..k]);
      assert Found(clusters, base + Covered(hub, policy, false, bs[..j], true));
      assert ListedAt(hub, policy, false, bs, base, j);
    }
  }

  /** A binding that does not waver is listed in every order or in none. */
  lemma SteadyShows(hub: Hub, policy: string, bs: seq<Binding>, b: Binding)
    requires UniqueNames(hub.bindings) && IsOrder(hub, bs) && b in hub.bindings && !Wavers(hub, policy, b)
    ensures Shows(hub, policy, bs, b) <==> !IsRestricted(b) || SelfFound(hub, policy, b)
  {
    OrderMembers(hub, bs);
    UniqueInAnyOrder(hub.bindings, bs);
    var j :| 0 <= j < |bs| && bs[j] == b;
    if SelfFound(hub, policy, b) {
      FoundShows(hub, policy, bs, j);
    } else if IsRestricted(b) {
      forall i | 0 <= i < j && IsRestricted(bs[i])
        ensures !Overlap(hub, policy, bs[j], bs[i])
      {
        assert bs[i] in hub.bindings && bs[i].name != bs[j].name;
      }
      ApartHides(hub, policy, bs, j);
    }
  }

  /******* Chosen orders *******/

  lemma OverlapSymmetric(hub: Hub, policy: string, a: Binding, b: Binding)
    requires Overlap(hub, policy, a, b)
    ensures Overlap(hub, policy, b, a)
  {
    var c :| c in ClustersOf(hub, policy, a) && c in ClustersOf(hub, policy, b);
  }

  function Drop(bs: seq<Binding>, k: nat): seq<Binding>
    requires k < |bs|
  {
    bs[..k] + bs[k + 1..]
  }

  lemma LastShows(hub: Hub, policy: string, bs: seq<Binding>, o: Binding)
    requires bs != [] && o in bs && o != bs[|bs| - 1] && IsRestricted(o) && IsRestricted(bs[|bs| - 1])
    requires Overlap(hub, policy, bs[|bs| - 1], o)
    ensures Shows(hub, policy, bs, bs[|bs| - 1])
  {
    var i :| 0 <= i < |bs| && bs[i] == o;
    OverlapSymmetric(hub, policy, bs[|bs| - 1], o);
    LaterShows(hub, policy, bs, i, |bs| - 1);
  }

  lemma FirstHides(hub: Hub, policy: string, bs: seq<Binding>)
    requires UniqueNames(bs) && bs != [] && IsRestricted(bs[0]) && !SelfFound(hub, policy, bs[0])
    ensures !Shows(hub, policy, bs, bs[0])
  {
    ApartHides(hub, policy, bs, 0);
  }

  lemma Last(hub: Hub, policy: string, u: Binding) returns (bs: seq<Binding>)
    requires UniqueNames(hub.bindings) && Wavers(hub, policy, u)
    ensures IsOrder(hub, bs) && Shows(hub, policy, bs, u)
  {
    var k :| 0 <= k < |hub.bindings| && hub.bindings[k] == u;
    ToBack(hub.bindings, k);
    bs := Drop(hub.bindings, k) + [u];
    OrderMembers(hub, bs);
    var o := Partner(hub, policy, u);
    LastShows(hub, policy, bs, o);
  }

  lemma First(hub: Hub, policy: string, u: Binding) returns (bs: seq<Binding>)
    requires UniqueNames(hub.bindings) && Wavers(hub, policy, u)
    ensures IsOrder(hub, bs) && !Shows(hub, policy, bs, u)
  {
    var k :| 0 <= k < |hub.bindings| && hub.bindings[k] == u;
    ToFront(hub.bindings, k);
    bs := [u] + Drop(hub.bindings, k);
    UniqueInAnyOrder(hub.bindings, bs);
    var o := Partner(hub, policy, u);
    FirstHides(hub, policy, bs);
  }

  lemma FirstAndLast(hub: Hub, policy: string, u: Binding, v: Binding) returns (bs: seq<Binding>)
    requires UniqueNames(hub.bindings) && Wavers(hub, policy, u) && Wavers(hub, policy, v) && u != v
    ensures IsOrder(hub, bs) && !Shows(hub, policy, bs, u) && Shows(hub, policy, bs, v)
  {
    bs := FrontAndBack(hub, u, v);
    UniqueInAnyOrder(hub.bindings, bs);
    OrderMembers(hub, bs);
    var o := Partner(hub, policy, u);
    FirstHides(hub, policy, bs);
    var w := Partner(hub, policy, v);
    LastShows(hub, policy, bs, w);
  }

  lemma ToFront(bs: seq<Binding>, k: nat)
    requires k < |bs|
    ensures multiset([bs[k]] + Drop(bs, k)) == multiset(bs)
  {
    MultisetRemove(bs, k);
  }

  lemma ToBack(bs: seq<Binding>, k: nat)
    requires k < |bs|
    ensures multiset(Drop(bs, k) + [bs[k]]) == multiset(bs)
  {
    MultisetRemove(bs, k);
  }

  lemma MoveBack(bs: seq<Binding>, v: Binding) returns (back: seq<Binding>)
    requires v in bs
    ensures multiset(back) == multiset(bs) && back != [] && back[|back| - 1] == v
  {
    var k :| 0 <= k < |bs| && bs[k] == v;
    ToBack(bs, k);
    back := Drop(bs, k) + [v];
  }

  lemma MoveFront(bs: seq<Binding>, u: Binding) returns (front: seq<Binding>)
    requires u in bs && u != bs[|bs| - 1]
    ensures multiset(front) == multiset(bs) && front != [] && front[0] == u && front[|front| - 1] == bs[|bs| - 1]
  {
    var k :| 0 <= k < |bs| && bs[k] == u;
    ToFront(bs, k);
    front := [u] + Drop(bs, k);
    assert front[|front| - 1] == Drop(bs, k)[|bs| - 2] == bs[|bs| - 1];
  }

  lemma FrontAndBack(hub: Hub, u: Binding, v: Binding) returns (bs: seq<Binding>)
    requires u in hub.bindings && v in hub.bindings && u != v
    ensures IsOrder(hub, bs) && bs != [] && bs[0] == u && bs[|bs| - 1] == v
  {
    bs := MoveBack(hub.bindings, v);
    OrderMembers(hub, bs);
    bs := MoveFront(bs, u);
  }

  /******* The bindings that decide *******/

  /** The binding excludes the cluster in some orders and not in others. */
  ghost predicate Swings(hub: Hub, policy: string, c: string, b: Binding)
  {
    Wavers(hub, policy, b) && MayExclude(hub, policy, b, c)
  }

  /** The binding excludes the cluster in every order. */
  ghost predicate Firm(hub: Hub, policy: string, c: string, b: Binding)
  {
    b in hub.bindings && MayExclude(hub, policy, b, c) && (!IsRestricted(b) || SelfFound(hub, policy, b))
  }

  ghost predicate SomeFirm(hub: Hub, policy: string, c: string)
  {
    exists b :: Firm(hub, policy, c, b)
  }

  lemma FirmHits(hub: Hub, policy: string, c: string, bs: seq<Binding>, b: Binding)
    requires UniqueNames(hub.bindings) && IsOrder(hub, bs) && b in hub.bindings && !Swings(hub, policy, c, b)
    ensures Hit(hub, policy, c, bs, b) <==> Firm(hub, policy, c, b)
  {
    if !Wavers(hub, policy, b) {
      SteadyShows(hub, policy, bs, b);
    }
  }

  lemma FirmIsSteady(hub: Hub, policy: string, c: string, b: Binding)
    requires Firm(hub, policy, c, b)
    ensures !Swings(hub, policy, c, b)
  {
    if Wavers(hub, policy, b) {
      var o := Partner(hub, policy, b);
    }
  }

  lemma FirmGivesHit(hub: Hub, policy: string, c: string, bs: seq<Binding>)
    requires UniqueNames(hub.bindings) && IsOrder(hub, bs) && SomeFirm(hub, policy, c)
    ensures SomeHit(hub, policy, c, bs)
  {
    var b :| Firm(hub, policy, c, b);
    FirmIsSteady(hub, policy, c, b);
    FirmHits(hub, policy, c, bs, b);
  }

  /** Without firm bindings, only a swinging one can exclude the cluster. */
  lemma HitSwings(hub: Hub, policy: string, c: string, bs: seq<Binding>, b: Binding)
    requires UniqueNames(hub.bindings) && IsOrder(hub, bs) && !SomeFirm(hub, policy, c)
    requires b in hub.bindings && Hit(hub, policy, c, bs, b)
    ensures Swings(hub, policy, c, b)
  {
    if !Swings(hub, policy, c, b) {
      FirmHits(hub, policy, c, bs, b);
    }
  }

  /** No two swinging bindings share a cluster. */
  ghost predicate Apart(hub: Hub, policy: string, c: string)
  {
    forall a, b :: Swings(hub, policy, c, a) && Swings(hub, policy, c, b) && a != b ==> !Overlap(hub, policy, a, b)
  }

  ghost function Part(hub: Hub, policy: string, c: string, bs: seq<Binding>, swinging: bool): seq<Binding>
  {
    if bs == [] then []
    else
      (if Swings(hub, policy, c, bs[0]) == swinging then [bs[0]] else []) + Part(hub, policy, c, bs[1..], swinging)
  }

  lemma {:induction false} PartMembers(hub: Hub, policy: string, c: string, bs: seq<Binding>)
    ensures forall b :: b in Part(hub, policy, c, bs, true) <==> b in bs && Swings(hub, policy, c, b)
  {
    if bs != [] {
      PartMembers(hub, policy, c, bs[1..]);
      assert bs == [bs[0]] + bs[1..];
    }
  }

  lemma {:induction false} PartsMultiset(hub: Hub, policy: string, c: string, bs: seq<Binding>)
    ensures multiset(Part(hub, policy, c, bs, true)) + multiset(Part(hub, policy, c, bs, false)) == multiset(bs)
  {
    if bs != [] {
      var x, rest := bs[0], bs[1..];
      PartsMultiset(hub, policy, c, rest);
      assert bs == [x] + rest;
      if Swings(hub, policy, c, x) {
        assert Part(hub, policy, c, bs, true) == [x] + Part(hub, policy, c, rest, true);
        assert Part(hub, policy, c, bs, false) == Part(hub, policy, c, rest, false);
      } else {
        assert Part(hub, policy, c, bs, true) == Part(hub, policy, c, rest, true);
        assert Part(hub, policy, c, bs, false) == [x] + Part(hub, policy, c, rest, false);
      }
    }
  }

  /** If they are apart, they can all be kept out by listing them first. */
  lemma SwingingFirst(hub: Hub, policy: string, c: string) returns (bs: seq<Binding>)
    requires UniqueNames(hub.bindings) && Apart(hub, policy, c)
    ensures IsOrder(hub, bs)
    ensures forall u :: Swings(hub, policy, c, u) ==> !Shows(hub, policy, bs, u)
  {
    var first := Part(hub, policy, c, hub.bindings, true);
    bs := first + Part(hub, policy, c, hub.bindings, false);
    PartMembers(hub, policy, c, hub.bindings);
    PartsMultiset(hub, policy, c, hub.bindings);
    UniqueInAnyOrder(hub.bindings, bs);
    forall u | Swings(hub, policy, c, u)
      ensures !Shows(hub, policy, bs, u)
    {
      var j :| 0 <= j < |first| && first[j] == u;
      var o := Partner(hub, policy, u);
      SwingingApart(hub, policy, c, first, bs, j);
      ApartHides(hub, policy, bs, j);
    }
  }

  lemma SwingingApart(hub: Hub, policy: string, c: string, first: seq<Binding>, bs: seq<Binding>, j: nat)
    requires Apart(hub, policy, c) && UniqueNames(bs) && first <= bs && j < |first|
    requires forall b :: b in first ==> Swings(hub, policy, c, b)
    ensures forall i :: 0 <= i < j && IsRestricted(bs[i]) ==> !Overlap(hub, policy, bs[j], bs[i])
  {
    forall i | 0 <= i < j
      ensures !Overlap(hub, policy, bs[j], bs[i])
    {
      assert bs[i] == first[i] && bs[j] == first[j] && first[i].name != first[j].name;
      assert first[i] in first && first[j] in first;
    }
  }

  /** Of two restricted bindings that share a cluster, the later one is listed. */
  lemma EitherShows(hub: Hub, policy: string, bs: seq<Binding>, a: Binding, b: Binding)
    requires a in bs && b in bs && a != b && IsRestricted(a) && IsRestricted(b) && Overlap(hub, policy, a, b)
    ensures Shows(hub, policy, bs, a) || Shows(hub, policy, bs, b)
  {
    OverlapSymmetric(hub, policy, a, b);
    var i :| 0 <= i < |bs| && bs[i] == a;
    var j :| 0 <= j < |bs| && bs[j] == b;
    if i < j {
      LaterShows(hub, policy, bs, i, j);
    } else {
      LaterShows(hub, policy, bs, j, i);
    }
  }

  /** If they are not, one of two that share a cluster is listed in every order. */
  lemma TogetherOneShows(hub: Hub, policy: string, c: string, bs: seq<Binding>)
    requires IsOrder(hub, bs) && !Apart(hub, policy, c)
    ensures SomeHit(hub, policy, c, bs)
  {
    var a, b :| Swings(hub, policy, c, a) && Swings(hub, policy, c, b) && a != b && Overlap(hub, policy, a, b);
    OrderMembers(hub, bs);
    EitherShows(hub, policy, bs, a, b);
    assert Hit(hub, policy, c, bs, a) || Hit(hub, policy, c, bs, b);
  }

  /******* The exact condition *******/

  ghost predicate SwingsHere(hub: Hub, policy: string, c: string, u: Binding)
  {
    Swings(hub, policy, c, u) && ListsCluster(hub, u, policy, c)
  }

  /** Some binding other than `u` swings or lists the cluster. */
  ghost predicate Accompanied(hub: Hub, policy: string, c: string, u: Binding)
  {
    exists w :: w in hub.bindings && w != u && (Swings(hub, policy, c, w) || ListsCluster(hub, w, policy, c))
  }

  /** Where a swinging binding lists the cluster: it is not alone, or something else excludes the cluster
      for good. Elsewhere: the cluster is listed, nothing excludes it for good, and the swinging bindings
      can be kept out all at once. */
  ghost predicate Unsteady(hub: Hub, policy: string, c: string)
  {
    if exists u :: SwingsHere(hub, policy, c, u) then
      SomeFirm(hub, policy, c) || exists u :: SwingsHere(hub, policy, c, u) && Accompanied(hub, policy, c, u)
    else
      && (exists b :: b in hub.bindings && ListsCluster(hub, b, policy, c))
      && !SomeFirm(hub, policy, c)
      && (exists u :: Swings(hub, policy, c, u))
      && Apart(hub, policy, c)
  }

  ghost predicate ReportsDiffer(hub: Hub, policy: string, c: string, bs: seq<Binding>, cs: seq<Binding>)
  {
    exists b :: b in hub.bindings && Reported(hub, policy, c, bs, b) != Reported(hub, policy, c, cs, b)
  }

  lemma FirmAndSwinging(hub: Hub, policy: string, c: string, u: Binding) returns (bs: seq<Binding>, cs: seq<Binding>)
    requires UniqueNames(hub.bindings) && SwingsHere(hub, policy, c, u) && SomeFirm(hub, policy, c)
    ensures IsOrder(hub, bs) && IsOrder(hub, cs) && ReportsDiffer(hub, policy, c, bs, cs)
  {
    bs := First(hub, policy, u);
    cs := Last(hub, policy, u);
    FirmGivesHit(hub, policy, c, bs);
    assert Reported(hub, policy, c, bs, u) && !Reported(hub, policy, c, cs, u);
  }

  lemma TwoSwinging(hub: Hub, policy: string, c: string, u: Binding, v: Binding)
    returns (bs: seq<Binding>, cs: seq<Binding>)
    requires UniqueNames(hub.bindings) && SwingsHere(hub, policy, c, u) && Swings(hub, policy, c, v) && u != v
    ensures IsOrder(hub, bs) && IsOrder(hub, cs) && ReportsDiffer(hub, policy, c, bs, cs)
  {
    bs := FirstAndLast(hub, policy, u, v);
    cs := Last(hub, policy, u);
    assert Hit(hub, policy, c, bs, v);
    assert Reported(hub, policy, c, bs, u) && !Reported(hub, policy, c, cs, u);
  }

  /** Only `u` swings, nothing is firm, and another binding lists the cluster. */
  lemma OneSwinging(hub: Hub, policy: string, c: string, u: Binding, w: Binding)
    returns (bs: seq<Binding>, cs: seq<Binding>)
    requires UniqueNames(hub.bindings) && Swings(hub, policy, c, u) && !SomeFirm(hub, policy, c)
    requires forall v :: Swings(hub, policy, c, v) ==> v == u
    requires w in hub.bindings && w != u && ListsCluster(hub, w, policy, c)
    ensures IsOrder(hub, bs) && IsOrder(hub, cs) && ReportsDiffer(hub, policy, c, bs, cs)
  {
    bs := First(hub, policy, u);
    cs := Last(hub, policy, u);
    forall b | b in hub.bindings
      ensures !Hit(hub, policy, c, bs, b) && (Hit(hub, policy, c, cs, b) ==> b == u)
    {
      if Hit(hub, policy, c, bs, b) {
        HitSwings(hub, policy, c, bs, b);
      }
      if Hit(hub, policy, c, cs, b) {
        HitSwings(hub, policy, c, cs, b);
      }
    }
    assert Hit(hub, policy, c, cs, u);
    assert !Reported(hub, policy, c, bs, w) && Reported(hub, policy, c, cs, w);
  }

  /** The swinging bindings do not list the cluster and can all be kept out. */
  lemma AllSwinging(hub: Hub, policy: string, c: string, u: Binding, w: Binding)
    returns (bs: seq<Binding>, cs: seq<Binding>)
    requires UniqueNames(hub.bindings) && Swings(hub, policy, c, u)
    requires !SomeFirm(hub, policy, c) && Apart(hub, policy, c)
    requires w in hub.bindings && ListsCluster(hub, w, policy, c) && !Swings(hub, policy, c, w)
    ensures IsOrder(hub, bs) && IsOrder(hub, cs) && ReportsDiffer(hub, policy, c, bs, cs)
  {
    bs := SwingingFirst(hub, policy, c);
    cs := Last(hub, policy, u);
    forall b | b in hub.bindings
      ensures !Hit(hub, policy, c, bs, b)
    {
      if Hit(hub, policy, c, bs, b) {
        HitSwings(hub, policy, c, bs, b);
      }
    }
    FirmHits(hub, policy, c, cs, w);
    assert Hit(hub, policy, c, cs, u);
    assert !Reported(hub, policy, c, bs, w) && Reported(hub, policy, c, cs, w);
  }

  lemma AccompaniedDiffers(hub: Hub, policy: string, c: string, u: Binding) returns (bs: seq<Binding>, cs: seq<Binding>)
    requires UniqueNames(hub.bindings) && !SomeFirm(hub, policy, c)
    requires SwingsHere(hub, policy, c, u) && Accompanied(hub, policy, c, u)
    ensures IsOrder(hub, bs) && IsOrder(hub, cs) && ReportsDiffer(hub, policy, c, bs, cs)
  {
    if v :| Swings(hub, policy, c, v) && v != u {
      bs, cs := TwoSwinging(hub, policy, c, u, v);
    } else {
      var w :| w in hub.bindings && w != u && (Swings(hub, policy, c, w) || ListsCluster(hub, w, policy, c));
      bs, cs := OneSwinging(hub, policy, c, u, w);
    }
  }

  lemma UnsteadyDiffers(hub: Hub, policy: string, c: string) returns (bs: seq<Binding>, cs: seq<Binding>)
    requires UniqueNames(hub.bindings) && Unsteady(hub, policy, c)
    ensures IsOrder(hub, bs) && IsOrder(hub, cs) && ReportsDiffer(hub, policy, c, bs, cs)
  {
    if exists u :: SwingsHere(hub, policy, c, u) {
      if SomeFirm(hub, policy, c) {
        var u :| SwingsHere(hub, policy, c, u);
        bs, cs := FirmAndSwinging(hub, policy, c, u);
      } else {
        var u :| SwingsHere(hub, policy, c, u) && Accompanied(hub, policy, c, u);
        bs, cs := AccompaniedDiffers(hub, policy, c, u);
      }
    } else {
      var u :| Swings(hub, policy, c, u);
      var w :| w in hub.bindings && ListsCluster(hub, w, policy, c);
      assert !SwingsHere(hub, policy, c, w);
      bs, cs := AllSwinging(hub, policy, c, u, w);
    }
  }

  /** Otherwise the report is the same in every order. */
  lemma SteadyAgrees(hub: Hub, policy: string, c: string, bs: seq<Binding>, cs: seq<Binding>, b: Binding)
    requires UniqueNames(hub.bindings) && !Unsteady(hub, policy, c) && IsOrder(hub, bs) && IsOrder(hub, cs)
    requires b in hub.bindings && Reported(hub, policy, c, bs, b)
    ensures Reported(hub, policy, c, cs, b)
  {
    if u :| SwingsHere(hub, policy, c, u) {
      LoneSwinging(hub, policy, c, bs, u, b);
    } else {
      assert !SwingsHere(hub, policy, c, b);
      FirmHits(hub, policy, c, bs, b);
      FirmHits(hub, policy, c, cs, b);
      if SomeFirm(hub, policy, c) {
        FirmGivesHit(hub, policy, c, cs);
      } else {
        var h :| h in hub.bindings && Hit(hub, policy, c, bs, h);
        HitSwings(hub, policy, c, bs, h);
        TogetherOneShows(hub, policy, c, cs);
      }
    }
  }

  /** A swinging binding that is alone is never reported: it excludes the cluster, or nothing does. */
  lemma LoneSwinging(hub: Hub, policy: string, c: string, bs: seq<Binding>, u: Binding, b: Binding)
    requires UniqueNames(hub.bindings) && IsOrder(hub, bs) && SwingsHere(hub, policy, c, u)
    requires !SomeFirm(hub, policy, c) && !Accompanied(hub, policy, c, u) && b in hub.bindings
    ensures !Reported(hub, policy, c, bs, b)
  {
    if SomeHit(hub, policy, c, bs) {
      var h :| h in hub.bindings && Hit(hub, policy, c, bs, h);
      HitSwings(hub, policy, c, bs, h);
      assert h == u;
    }
  }

  /** The remaining bindings reported for the cluster come out differently in some other order. */
  ghost predicate ReportDependsOnOrder(hub: Hub, policy: string, c: string)
  {
    exists bs :: IsOrder(hub, bs) && ReportsDiffer(hub, policy, c, hub.bindings, bs)
  }

  /** The remaining bindings of a cluster depend on the order of the bindings exactly when it is unsteady. */
  lemma RemainingOrderExactly(hub: Hub, policy: string, c: string)
    requires UniqueNames(hub.bindings)
    ensures ReportDependsOnOrder(hub, policy, c) <==> Unsteady(hub, policy, c)
  {
    if Unsteady(hub, policy, c) {
      var bs, cs := UnsteadyDiffers(hub, policy, c);
      var b :| b in hub.bindings && Reported(hub, policy, c, bs, b) != Reported(hub, policy, c, cs, b);
      assert ReportsDiffer(hub, policy, c, hub.bindings, bs) || ReportsDiffer(hub, policy, c, hub.bindings, cs);
    } else {
      forall bs, b | IsOrder(hub, bs) && b in hub.bindings
        ensures Reported(hub, policy, c, hub.bindings, b) == Reported(hub, policy, c, bs, b)
      {
        if Reported(hub, policy, c, hub.bindings, b) {
          SteadyAgrees(hub, policy, c, hub.bindings, bs, b);
        }
        if Reported(hub, policy, c, bs, b) {
          SteadyAgrees(hub, policy, c, bs, hub.bindings, b);
        }
      }
    }
  }

  /******* The status list *******/

  /** The reports for two orders agree on a cluster exactly when they name the same bindings. */
  lemma ReportsAgreeAt(hub: Hub, policy: string, bs: seq<Binding>, d: DecisionSet, r: DecisionSet, r': DecisionSet,
                       c: string)
    requires WellNamed(hub) && IsOrder(hub, bs) && IsDecisionSet(hub, policy, false, d)
    requires IsReport(false, Placements(hub, policy, false), d, r)
    requires IsReport(false, Placements(hub.(bindings := bs), policy, false), d, r')
    ensures At(r, c) == At(r', c) <==> !ReportsDiffer(hub, policy, c, hub.bindings, bs)
  {
    assert hub.(bindings := hub.bindings) == hub;
    forall b | b in hub.bindings
      ensures b.name in At(r, c) <==> Reported(hub, policy, c, hub.bindings, b)
      ensures b.name in At(r', c) <==> Reported(hub, policy, c, bs, b)
    {
      ReportedExactly(hub, policy, c, hub.bindings, b, d, r);
      ReportedExactly(hub, policy, c, bs, b, d, r');
    }
    if !ReportsDiffer(hub, policy, c, hub.bindings, bs) {
      forall n
        ensures n in At(r, c) <==> n in At(r', c)
      {
        if n in At(d, c) {
          ReportNames(hub, policy, d, c, n);
        }
      }
      assert StrictlySorted(At(d, c));
      StrictUnique(At(r, c), At(r', c));
    }
  }

  lemma ReportNames(hub: Hub, policy: string, d: DecisionSet, c: string, n: string)
    requires IsDecisionSet(hub, policy, false, d) && n in At(d, c)
    ensures exists b :: b in hub.bindings && b.name == n
  {
    assert ListedBy(hub, policy, false, c, n);
  }

  /** The status list of another order is the same exactly when no cluster has other remaining bindings. */
  lemma StatusSameExactly(hub: Hub, policy: string, bs: seq<Binding>, d: DecisionSet, replicas: Replicas,
                          list: seq<Status>, list': seq<Status>)
    requires WellNamed(hub) && IsOrder(hub, bs) && IsDecisionSet(hub, policy, false, d)
    requires IsStatusList(false, Placements(hub, policy, false), d, replicas, list)
    requires IsStatusList(false, Placements(hub.(bindings := bs), policy, false), d, replicas, list')
    ensures list == list' <==> forall c :: c in d ==> !ReportsDiffer(hub, policy, c, hub.bindings, bs)
  {
    var p, q := Placements(hub, policy, false), Placements(hub.(bindings := bs), policy, false);
    var r :| IsReport(false, p, d, r) && ListsStatuses(d, r, replicas, list);
    var r' :| IsReport(false, q, d, r') && ListsStatuses(d, r', replicas, list');
    forall c
      ensures At(r, c) == At(r', c) <==> !ReportsDiffer(hub, policy, c, hub.bindings, bs)
    {
      ReportsAgreeAt(hub, policy, bs, d, r, r', c);
    }
    SameListsSameReports(d, r, r', replicas, list, list');
  }

  lemma SameListsSameReports(d: DecisionSet, r: DecisionSet, r': DecisionSet, replicas: Replicas, list: seq<Status>,
                             list': seq<Status>)
    requires ListsStatuses(d, r, replicas, list) && ListsStatuses(d, r', replicas, list')
    ensures list == list' <==> forall c :: c in d ==> At(r, c) == At(r', c)
  {
    ListsAgree(d, r, r', replicas, list, list');
    if list == list' {
      forall c | c in d
        ensures At(r, c) == At(r', c)
      {
        assert StatusOf(r, replicas, c) in list;
      }
    }
    if forall c :: c in d ==> At(r, c) == At(r', c) {
      forall i | 0 <= i < |list|
        ensures list[i] == list'[i]
      {
        assert list[i] in list && list'[i] in list';
      }
    }
  }
}
