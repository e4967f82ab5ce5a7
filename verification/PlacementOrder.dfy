/**
Order of the placement bindings: the decision set never depends on it, and the placement list of the
root policy's status depends on it exactly when some restricted binding is listed or not according to
which other restricted bindings came first (controllers/common/common_status_update.go).
*/
module PlacementOrder {
  import opened Ordering
  import opened Placement
  import opened DecisionSets

  /** Objects of one kind in a namespace have different names. */
  ghost predicate UniqueNames(bs: seq<Binding>)
  {
    forall i, j :: 0 <= i < j < |bs| ==> bs[i].name != bs[j].name
  }

  /** Names of Kubernetes objects are not empty and hold no space. */
  predicate IsName(n: string)
  {
    n != "" && ' ' !in n
  }

  ghost predicate WellNamed(hub: Hub)
  {
    && UniqueNames(hub.bindings)
    && (forall b :: b in hub.bindings ==> IsName(b.name))
    && (forall n :: n in hub.policySets ==> IsName(n))
    && (forall n :: n in hub.rules ==> IsName(n))
    && (forall n :: n in hub.placements ==> IsName(n))
  }

  lemma SameBinding(bs: seq<Binding>, a: Binding, b: Binding)
    requires UniqueNames(bs) && a in bs && b in bs && a.name == b.name
    ensures a == b
  {
    var i :| 0 <= i < |bs| && bs[i] == a;
    var j :| 0 <= j < |bs| && bs[j] == b;
    assert !(i < j) && !(j < i);
  }

  /******* The decision set *******/

  lemma ReorderedLists(hub: Hub, other: Hub, policy: string)
    requires Reordered(hub, other)
    ensures forall b :: b in hub.bindings <==> b in other.bindings
    ensures forall b, c :: ListsCluster(hub, b, policy, c) <==> ListsCluster(other, b, policy, c)
  {
    assert forall b :: b in hub.bindings <==> b in multiset(hub.bindings);
    assert forall b :: b in other.bindings <==> b in multiset(other.bindings);
    assert forall s :: BindsBy(hub, s, policy) <==> BindsBy(other, s, policy);
  }

  /** A decision set is determined by which bindings there are, not by their order. */
  lemma DecisionSetIgnoresOrder(hub: Hub, other: Hub, policy: string, disabled: bool, d: DecisionSet, e: DecisionSet)
    requires Reordered(hub, other)
    requires IsDecisionSet(hub, policy, disabled, d) && IsDecisionSet(other, policy, disabled, e)
    ensures d == e
  {
    ReorderedLists(hub, other, policy);
    forall c
      ensures At(d, c) == At(e, c)
    {
      forall n
        ensures n in At(d, c) <==> n in At(e, c)
      {
        assert ListedBy(hub, policy, disabled, c, n) <==> ListedBy(other, policy, disabled, c, n);
      }
      StrictUnique(At(d, c), At(e, c));
    }
    assert forall c :: c in d <==> At(d, c) != [];
    assert forall c :: c in e <==> At(e, c) != [];
  }

  /******* The sort key *******/

  lemma FirstSpace(a: string, x: string, s: string)
    requires s == a + " " + x && ' ' !in a
    ensures s[|a|] == ' ' && s[..|a|] == a && s[|a| + 1..] == x
    ensures forall k :: 0 <= k < |a| ==> s[k] != ' '
  {
    assert forall k :: 0 <= k < |a| ==> s[k] == a[k];
  }

  lemma SplitAtSpace(a: string, x: string, b: string, y: string)
    requires ' ' !in a && ' ' !in b && a + " " + x == b + " " + y
    ensures a == b && x == y
  {
    FirstSpace(a, x, a + " " + x);
    FirstSpace(b, y, a + " " + x);
    assert |a| == |b|;
  }

  predicate Spaceless(e: Entry)
  {
    ' ' !in e.binding && ' ' !in e.placement && ' ' !in e.rule
  }

  /** The space-joined key tells the four names apart. */
  lemma KeyIsInjective(e: Entry, f: Entry)
    requires Spaceless(e) && Spaceless(f)
    requires Key(e) == Key(f)
    ensures e.(exclusions := f.exclusions) == f
  {
    var e2, f2 := e.rule + " " + e.policySet, f.rule + " " + f.policySet;
    var e1, f1 := e.placement + " " + e2, f.placement + " " + f2;
    assert Key(e) == e.binding + " " + e1 && Key(f) == f.binding + " " + f1;
    SplitAtSpace(e.binding, e1, f.binding, f1);
    SplitAtSpace(e.placement, e2, f.placement, f2);
    SplitAtSpace(e.rule, e.policySet, f.rule, f.policySet);
  }

  /** Where an entry came from. */
  lemma EntryOrigin(hub: Hub, b: Binding, policy: string, e: Entry)
    requires WellNamed(hub) && b in hub.bindings && e in Entries(hub, b, policy)
    ensures e.binding == b.name && Spaceless(e)
    ensures e == Fill(hub, b, if e.policySet == "" then DirectEntry(b) else SetEntry(hub, b, e.policySet, policy))
  {
    EntriesMeaning(hub, b, policy, e);
  }

  /** Among the entries of a hub, the key determines the entry. */
  lemma KeyDeterminesEntry(hub: Hub, policy: string, a: Binding, b: Binding, e: Entry, f: Entry)
    requires WellNamed(hub) && a in hub.bindings && b in hub.bindings
    requires e in Entries(hub, a, policy) && f in Entries(hub, b, policy) && Key(e) == Key(f)
    ensures e == f
  {
    EntryOrigin(hub, a, policy, e);
    EntryOrigin(hub, b, policy, f);
    KeyIsInjective(e, f);
    SameBinding(hub.bindings, a, b);
  }

  /******* The order of the list *******/

  /** Every character sorts after the space. */
  predicate Visible(n: string)
  {
    forall i :: 0 <= i < |n| ==> n[i] > ' '
  }

  /** Joined by spaces, visible names compare one after the other. */
  lemma {:induction false} LessJoined(a: string, x: string, b: string, y: string)
    requires Visible(a) && Visible(b)
    ensures Less(a + " " + x, b + " " + y) <==> Less(a, b) || (a == b && Less(x, y))
  {
    var s, t := a + " " + x, b + " " + y;
    if a == [] && b == [] {
      assert s[1..] == x && t[1..] == y;
    } else if a != [] && b != [] {
      assert s[1..] == a[1..] + " " + x && t[1..] == b[1..] + " " + y;
      assert a == [a[0]] + a[1..] && b == [b[0]] + b[1..];
      LessJoined(a[1..], x, b[1..], y);
    }
  }

  /** By binding, then Placement, then PlacementRule, then PolicySet. */
  predicate EntryLess(e: Entry, f: Entry)
  {
    || Less(e.binding, f.binding)
    || (e.binding == f.binding &&
        (|| Less(e.placement, f.placement)
         || (e.placement == f.placement &&
             (Less(e.rule, f.rule) || (e.rule == f.rule && Less(e.policySet, f.policySet))))))
  }

  predicate VisibleEntry(e: Entry)
  {
    Visible(e.binding) && Visible(e.placement) && Visible(e.rule)
  }

  lemma KeyOrder(e: Entry, f: Entry)
    requires VisibleEntry(e) && VisibleEntry(f)
    ensures Less(Key(e), Key(f)) <==> EntryLess(e, f)
  {
    var e2, f2 := e.rule + " " + e.policySet, f.rule + " " + f.policySet;
    var e1, f1 := e.placement + " " + e2, f.placement + " " + f2;
    assert Key(e) == e.binding + " " + e1 && Key(f) == f.binding + " " + f1;
    LessJoined(e.binding, e1, f.binding, f1);
    LessJoined(e.placement, e2, f.placement, f2);
    LessJoined(e.rule, e.policySet, f.rule, f.policySet);
  }

  /******* Gathering entries in any order *******/

  ghost function Gather(bs: seq<Binding>, f: Binding -> seq<Entry>): multiset<Entry>
  {
    if bs == [] then multiset{} else Gather(bs[..|bs| - 1], f) + multiset(f(bs[|bs| - 1]))
  }

  lemma {:induction false} GatherRemove(bs: seq<Binding>, k: nat, f: Binding -> seq<Entry>)
    requires k < |bs|
    ensures Gather(bs, f) == Gather(bs[..k] + bs[k + 1..], f) + multiset(f(bs[k]))
  {
    var n := |bs| - 1;
    if k == n {
      assert bs[..k] + bs[k + 1..] == bs[..n];
    } else {
      GatherRemove(bs[..n], k, f);
      var rest := bs[..k] + bs[k + 1..];
      assert rest[..n - 1] == bs[..n][..k] + bs[..n][k + 1..];
      assert rest[n - 1] == bs[n];
    }
  }

  lemma MultisetRemove<T>(s: seq<T>, k: nat)
    requires k < |s|
    ensures multiset(s[..k] + s[k + 1..]) == multiset(s) - multiset{s[k]}
  {
    assert s == s[..k] + [s[k]] + s[k + 1..];
  }

  lemma {:induction false} GatherPermuted(bs: seq<Binding>, cs: seq<Binding>, f: Binding -> seq<Entry>,
                                          g: Binding -> seq<Entry>)
    requires multiset(bs) == multiset(cs)
    requires forall b :: f(b) == g(b)
    ensures Gather(bs, f) == Gather(cs, g)
    decreases |bs|
  {
    assert |bs| == |multiset(bs)| == |multiset(cs)| == |cs|;
    if bs != [] {
      var n := |bs| - 1;
      assert bs[n] in multiset(cs);
      var k :| 0 <= k < |cs| && cs[k] == bs[n];
      MultisetRemove(bs, n);
      MultisetRemove(cs, k);
      assert bs[..n] + bs[n + 1..] == bs[..n];
      GatherPermuted(bs[..n], cs[..k] + cs[k + 1..], f, g);
      GatherRemove(cs, k, g);
    }
  }

  /******* One hub, two orders *******/

  lemma {:induction false} SameScan(hub: Hub, other: Hub, b: Binding, policy: string, subjects: seq<Subject>)
    requires other.policySets == hub.policySets
    ensures ScanSubjects(other, b, policy, subjects) == ScanSubjects(hub, b, policy, subjects)
  {
    if subjects != [] {
      SameScan(hub, other, b, policy, subjects[..|subjects| - 1]);
    }
  }

  lemma SameEntries(hub: Hub, other: Hub, policy: string)
    requires other == hub.(bindings := other.bindings)
    ensures forall b :: Entries(other, b, policy) == Entries(hub, b, policy)
    ensures forall b, disabled :: Clusters(other, b, policy, disabled) == Clusters(hub, b, policy, disabled)
  {
    forall b
      ensures Raw(other, b, policy) == Raw(hub, b, policy)
    {
      SameScan(hub, other, b, policy, b.subjects);
    }
  }

  lemma SameCovered(hub: Hub, other: Hub, policy: string, disabled: bool, restricted: bool)
    requires Reordered(hub, other)
    ensures Covered(other, policy, disabled, other.bindings, restricted) ==
            Covered(hub, policy, disabled, hub.bindings, restricted)
  {
    SameEntries(hub, other, policy);
    ReorderedLists(hub, other, policy);
  }

  lemma UniqueInAnyOrder(bs: seq<Binding>, cs: seq<Binding>)
    requires UniqueNames(bs) && multiset(bs) == multiset(cs)
    ensures UniqueNames(cs)
  {
    forall i, j | 0 <= i < j < |cs|
      ensures cs[i].name != cs[j].name
    {
      if cs[i].name == cs[j].name {
        assert cs[i] in multiset(bs) && cs[j] in multiset(bs);
        SameBinding(bs, cs[i], cs[j]);
        TwiceCounted(cs, i, j);
        DistinctOnce(bs, cs[i]);
      }
    }
  }

  /******* When the placement list does not depend on the order *******/

  ghost function Base(hub: Hub, policy: string, disabled: bool): set<string>
  {
    Covered(hub, policy, disabled, hub.bindings, false)
  }

  ghost predicate Disjoint(a: seq<string>, b: seq<string>)
  {
    forall c :: c in a ==> c !in b
  }

  /** The binding is listed whatever comes before it, or shares no cluster with another restricted one. */
  ghost predicate SettledFor(hub: Hub, policy: string, disabled: bool, b: Binding)
  {
    || Found(Clusters(hub, b, policy, disabled), Base(hub, policy, disabled))
    || (forall o :: o in hub.bindings && IsRestricted(o) && o != b ==>
          Disjoint(Clusters(hub, b, policy, disabled), Clusters(hub, o, policy, disabled)))
  }

  ghost predicate Settled(hub: Hub, policy: string, disabled: bool)
  {
    forall b :: b in hub.bindings && IsRestricted(b) ==> SettledFor(hub, policy, disabled, b)
  }

  /** The entries a binding contributes, when that does not depend on the bindings before it. */
  ghost function Contribution(hub: Hub, policy: string, disabled: bool, base: set<string>, b: Binding): seq<Entry>
  {
    if IsRestricted(b) && !Found(Clusters(hub, b, policy, disabled), base) then [] else Entries(hub, b, policy)
  }

  ghost function Contributions(hub: Hub, policy: string, disabled: bool, base: set<string>): Binding -> seq<Entry>
  {
    b => Contribution(hub, policy, disabled, base, b)
  }

  lemma FoundBefore(hub: Hub, policy: string, disabled: bool, n: nat)
    requires UniqueNames(hub.bindings) && Settled(hub, policy, disabled) && n < |hub.bindings|
    requires IsRestricted(hub.bindings[n])
    ensures var clusters := Clusters(hub, hub.bindings[n], policy, disabled);
            var base := Base(hub, policy, disabled);
            Found(clusters, base + Covered(hub, policy, disabled, hub.bindings[..n], true)) <==> Found(clusters, base)
  {
    var b := hub.bindings[n];
    var clusters, base := Clusters(hub, b, policy, disabled), Base(hub, policy, disabled);
    var before := Covered(hub, policy, disabled, hub.bindings[..n], true);
    if !Found(clusters, base) {
      forall o | o in hub.bindings[..n] && IsRestricted(o)
        ensures Disjoint(clusters, Clusters(hub, o, policy, disabled))
      {
        assert o in hub.bindings && o.name != b.name;
      }
      assert forall c :: c in clusters ==> c !in before;
    }
  }

  lemma {:induction false} SettledGather(hub: Hub, policy: string, disabled: bool, n: nat)
    requires UniqueNames(hub.bindings) && Settled(hub, policy, disabled) && n <= |hub.bindings|
    ensures var base := Base(hub, policy, disabled);
            multiset(Unrestricted(hub, policy, hub.bindings[..n])) +
            multiset(Restricted(hub, policy, disabled, hub.bindings[..n], base)) ==
            Gather(hub.bindings[..n], Contributions(hub, policy, disabled, base))
  {
    if n > 0 {
      SettledGather(hub, policy, disabled, n - 1);
      assert hub.bindings[..n][..n - 1] == hub.bindings[..n - 1];
      if IsRestricted(hub.bindings[n - 1]) {
        FoundBefore(hub, policy, disabled, n - 1);
      }
    }
  }

  lemma PlacementsGather(hub: Hub, policy: string, disabled: bool)
    requires UniqueNames(hub.bindings) && Settled(hub, policy, disabled)
    ensures multiset(Placements(hub, policy, disabled)) ==
            Gather(hub.bindings, Contributions(hub, policy, disabled, Base(hub, policy, disabled)))
  {
    SettledGather(hub, policy, disabled, |hub.bindings|);
    assert hub.bindings[..|hub.bindings|] == hub.bindings;
  }

  lemma ReorderedSettled(hub: Hub, other: Hub, policy: string, disabled: bool)
    requires Reordered(hub, other) && Settled(hub, policy, disabled)
    ensures Settled(other, policy, disabled)
  {
    SameCovered(hub, other, policy, disabled, false);
    SameEntries(hub, other, policy);
    ReorderedLists(hub, other, policy);
    forall b | b in other.bindings && IsRestricted(b)
      ensures SettledFor(other, policy, disabled, b)
    {
      assert SettledFor(hub, policy, disabled, b);
    }
  }

  ghost predicate GivenBy(hub: Hub, policy: string, bs: seq<Binding>, e: Entry, b: Binding)
  {
    b in bs && !IsRestricted(b) && e in Entries(hub, b, policy)
  }

  lemma {:induction false} UnrestrictedHas(hub: Hub, policy: string, bs: seq<Binding>, e: Entry, b: Binding)
    requires GivenBy(hub, policy, bs, e, b)
    ensures e in Unrestricted(hub, policy, bs)
  {
    var n := |bs| - 1;
    if b != bs[n] {
      assert bs == bs[..n] + [bs[n]];
      UnrestrictedHas(hub, policy, bs[..n], e, b);
    }
  }

  lemma {:induction false} UnrestrictedFrom(hub: Hub, policy: string, bs: seq<Binding>, e: Entry) returns (b: Binding)
    requires e in Unrestricted(hub, policy, bs)
    ensures GivenBy(hub, policy, bs, e, b)
    decreases |bs|
  {
    var n := |bs| - 1;
    b := bs[n];
    if !GivenBy(hub, policy, bs, e, b) {
      b := UnrestrictedFrom(hub, policy, bs[..n], e);
    }
  }

  ghost predicate GivenAt(hub: Hub, policy: string, disabled: bool, bs: seq<Binding>, base: set<string>, e: Entry,
                          k: nat)
  {
    k < |bs| && ListedAt(hub, policy, disabled, bs, base, k) && e in Entries(hub, bs[k], policy)
  }

  lemma GivenAtPrefix(hub: Hub, policy: string, disabled: bool, bs: seq<Binding>, base: set<string>, e: Entry, n: nat,
                      k: nat)
    requires k < n <= |bs|
    ensures GivenAt(hub, policy, disabled, bs[..n], base, e, k) <==> GivenAt(hub, policy, disabled, bs, base, e, k)
  {
    assert bs[..n][..k] == bs[..k];
  }

  lemma RestrictedUnfold(hub: Hub, policy: string, disabled: bool, bs: seq<Binding>, base: set<string>, e: Entry)
    requires bs != []
    ensures e in Restricted(hub, policy, disabled, bs, base) <==>
            || e in Restricted(hub, policy, disabled, bs[..|bs| - 1], base)
            || GivenAt(hub, policy, disabled, bs, base, e, |bs| - 1)
  {
  }

  lemma {:induction false} RestrictedHas(hub: Hub, policy: string, disabled: bool, bs: seq<Binding>, base: set<string>,
                                         e: Entry, k: nat)
    requires GivenAt(hub, policy, disabled, bs, base, e, k)
    ensures e in Restricted(hub, policy, disabled, bs, base)
  {
    RestrictedUnfold(hub, policy, disabled, bs, base, e);
    if k < |bs| - 1 {
      GivenAtPrefix(hub, policy, disabled, bs, base, e, |bs| - 1, k);
      RestrictedHas(hub, policy, disabled, bs[..|bs| - 1], base, e, k);
    }
  }

  lemma {:induction false} RestrictedFrom(hub: Hub, policy: string, disabled: bool, bs: seq<Binding>,
                                          base: set<string>, e: Entry)
    returns (k: nat)
    requires e in Restricted(hub, policy, disabled, bs, base)
    ensures GivenAt(hub, policy, disabled, bs, base, e, k)
    decreases |bs|
  {
    k := |bs| - 1;
    RestrictedUnfold(hub, policy, disabled, bs, base, e);
    if !GivenAt(hub, policy, disabled, bs, base, e, k) {
      var n := k;
      k := RestrictedFrom(hub, policy, disabled, bs[..n], base, e);
      GivenAtPrefix(hub, policy, disabled, bs, base, e, n, k);
    }
  }

  /** Every entry in the list belongs to a binding. */
  lemma PlacementsOrigin(hub: Hub, policy: string, disabled: bool, e: Entry) returns (b: Binding)
    requires e in Placements(hub, policy, disabled)
    ensures b in hub.bindings && e in Entries(hub, b, policy)
  {
    var base := Base(hub, policy, disabled);
    assert e in multiset(Placements(hub, policy, disabled));
    if e in Unrestricted(hub, policy, hub.bindings) {
      b := UnrestrictedFrom(hub, policy, hub.bindings, e);
    } else {
      var k := RestrictedFrom(hub, policy, disabled, hub.bindings, base, e);
      b := hub.bindings[k];
    }
  }

  lemma SettledMultiset(hub: Hub, other: Hub, policy: string, disabled: bool)
    requires WellNamed(hub) && Reordered(hub, other) && Settled(hub, policy, disabled)
    ensures multiset(Placements(hub, policy, disabled)) == multiset(Placements(other, policy, disabled))
  {
    var base := Base(hub, policy, disabled);
    UniqueInAnyOrder(hub.bindings, other.bindings);
    ReorderedSettled(hub, other, policy, disabled);
    SameCovered(hub, other, policy, disabled, false);
    SameEntries(hub, other, policy);
    PlacementsGather(hub, policy, disabled);
    PlacementsGather(other, policy, disabled);
    GatherPermuted(hub.bindings, other.bindings,
      Contributions(hub, policy, disabled, base), Contributions(other, policy, disabled, base));
  }

  ghost predicate VisibleNames(hub: Hub)
  {
    && (forall b :: b in hub.bindings ==> Visible(b.name))
    && (forall n :: n in hub.rules ==> Visible(n))
    && (forall n :: n in hub.placements ==> Visible(n))
  }

  /** The placement list is ordered by binding, then Placement, PlacementRule and PolicySet. */
  lemma PlacementsInOrder(hub: Hub, policy: string, disabled: bool, i: nat, j: nat)
    requires VisibleNames(hub) && i < j < |Placements(hub, policy, disabled)|
    ensures !EntryLess(Placements(hub, policy, disabled)[j], Placements(hub, policy, disabled)[i])
  {
    var p := Placements(hub, policy, disabled);
    var a := PlacementsOrigin(hub, policy, disabled, p[i]);
    var b := PlacementsOrigin(hub, policy, disabled, p[j]);
    EntryFields(hub, a, policy, p[i]);
    EntryFields(hub, b, policy, p[j]);
    KeyOrder(p[j], p[i]);
    assert Leq(Key(p[i]), Key(p[j]));
  }

  /** A settled placement list is the same in every order of the bindings. */
  lemma SettledIgnoresOrder(hub: Hub, other: Hub, policy: string, disabled: bool)
    requires WellNamed(hub) && Reordered(hub, other) && Settled(hub, policy, disabled)
    ensures Placements(hub, policy, disabled) == Placements(other, policy, disabled)
  {
    SettledMultiset(hub, other, policy, disabled);
    KeyDeterminesPlacement(hub, policy, disabled);
    SortedUnique(Placements(hub, policy, disabled), Placements(other, policy, disabled), Key);
  }

  lemma KeyDeterminesPlacement(hub: Hub, policy: string, disabled: bool)
    requires WellNamed(hub)
    ensures var p := Placements(hub, policy, disabled);
            forall e, f :: e in p && f in p && Key(e) == Key(f) ==> e == f
  {
    var p := Placements(hub, policy, disabled);
    forall e, f | e in p && f in p && Key(e) == Key(f)
      ensures e == f
    {
      var a := PlacementsOrigin(hub, policy, disabled, e);
      var b := PlacementsOrigin(hub, policy, disabled, f);
      KeyDeterminesEntry(hub, policy, a, b, e, f);
    }
  }

  /******* When it does *******/

  lemma MoreFound(clusters: seq<string>, c: string, covered: set<string>)
    requires c in clusters && c in covered
    ensures Found(clusters, covered)
  {
    var k :| 0 <= k < |clusters| && clusters[k] == c;
  }

  lemma SomeEntry(hub: Hub, policy: string, disabled: bool, b: Binding) returns (e: Entry)
    requires Clusters(hub, b, policy, disabled) != []
    ensures e in Entries(hub, b, policy)
  {
    e := Entries(hub, b, policy)[0];
  }

  /** Put first, a binding that needs another one is not listed. */
  lemma FirstIsNotListed(hub: Hub, policy: string, disabled: bool, e: Entry)
    requires WellNamed(hub) && hub.bindings != []
    requires var b := hub.bindings[0];
             IsRestricted(b) && e.binding == b.name &&
             !Found(Clusters(hub, b, policy, disabled), Base(hub, policy, disabled))
    ensures e !in Placements(hub, policy, disabled)
  {
    var base := Base(hub, policy, disabled);
    forall b | b in hub.bindings && e in Entries(hub, b, policy)
      ensures b == hub.bindings[0]
    {
      EntryOrigin(hub, b, policy, e);
      SameBinding(hub.bindings, b, hub.bindings[0]);
    }
    if e in Unrestricted(hub, policy, hub.bindings) {
      var b := UnrestrictedFrom(hub, policy, hub.bindings, e);
    }
    if e in Restricted(hub, policy, disabled, hub.bindings, base) {
      var k := RestrictedFrom(hub, policy, disabled, hub.bindings, base, e);
      assert k == 0;
      NotListedFirst(hub, policy, disabled, e);
    }
    assert e !in multiset(Placements(hub, policy, disabled));
  }

  lemma NotListedFirst(hub: Hub, policy: string, disabled: bool, e: Entry)
    requires hub.bindings != []
    requires !Found(Clusters(hub, hub.bindings[0], policy, disabled), Base(hub, policy, disabled))
    ensures !GivenAt(hub, policy, disabled, hub.bindings, Base(hub, policy, disabled), e, 0)
  {
    var base := Base(hub, policy, disabled);
    assert base + Covered(hub, policy, disabled, hub.bindings[..0], true) == base;
  }

  /** Put last, a restricted binding that shares a cluster with an earlier one is. */
  lemma LastIsListed(hub: Hub, policy: string, disabled: bool, o: Binding, c: string, e: Entry)
    requires hub.bindings != []
    requires o in hub.bindings[..|hub.bindings| - 1] && IsRestricted(o) && c in Clusters(hub, o, policy, disabled)
    requires var b := hub.bindings[|hub.bindings| - 1];
             IsRestricted(b) && c in Clusters(hub, b, policy, disabled) && e in Entries(hub, b, policy)
    ensures e in Placements(hub, policy, disabled)
  {
    var n := |hub.bindings| - 1;
    var base := Base(hub, policy, disabled);
    assert c in Covered(hub, policy, disabled, hub.bindings[..n], true);
    MoreFound(Clusters(hub, hub.bindings[n], policy, disabled), c,
      base + Covered(hub, policy, disabled, hub.bindings[..n], true));
    RestrictedHas(hub, policy, disabled, hub.bindings, base, e, n);
    assert e in multiset(Placements(hub, policy, disabled));
  }

  lemma MovedTo(hub: Hub, k: nat) returns (first: Hub, last: Hub)
    requires k < |hub.bindings|
    ensures Reordered(hub, first) && first.bindings != [] && first.bindings[0] == hub.bindings[k]
    ensures Reordered(hub, last) && last.bindings == hub.bindings[..k] + hub.bindings[k + 1..] + [hub.bindings[k]]
  {
    var b, rest := hub.bindings[k], hub.bindings[..k] + hub.bindings[k + 1..];
    MultisetRemove(hub.bindings, k);
    first, last := hub.(bindings := [b] + rest), hub.(bindings := rest + [b]);
  }

  lemma RestHas(bs: seq<Binding>, k: nat, o: Binding)
    requires k < |bs| && o in bs && o != bs[k]
    ensures o in bs[..k] + bs[k + 1..]
  {
    var rest := bs[..k] + bs[k + 1..];
    var j :| 0 <= j < |bs| && bs[j] == o;
    assert rest[if j < k then j else j - 1] == o;
  }

  /** The placement list comes out differently in some other order of the bindings. */
  ghost predicate OrderMatters(hub: Hub, policy: string, disabled: bool)
  {
    exists other :: Reordered(hub, other) && Placements(hub, policy, disabled) != Placements(other, policy, disabled)
  }

  lemma UnsettledOrderMatters(hub: Hub, policy: string, disabled: bool)
    requires WellNamed(hub) && !Settled(hub, policy, disabled)
    ensures OrderMatters(hub, policy, disabled)
  {
    var b :| b in hub.bindings && IsRestricted(b) && !SettledFor(hub, policy, disabled, b);
    var o :| o in hub.bindings && IsRestricted(o) && o != b &&
             !Disjoint(Clusters(hub, b, policy, disabled), Clusters(hub, o, policy, disabled));
    var c :| c in Clusters(hub, b, policy, disabled) && c in Clusters(hub, o, policy, disabled);
    var e := SomeEntry(hub, policy, disabled, b);
    EntryOrigin(hub, b, policy, e);
    var k :| 0 <= k < |hub.bindings| && hub.bindings[k] == b;
    var first, last := MovedTo(hub, k);
    RestHas(hub.bindings, k, o);
    SameEntries(hub, first, policy);
    SameEntries(hub, last, policy);
    SameCovered(hub, first, policy, disabled, false);
    UniqueInAnyOrder(hub.bindings, first.bindings);
    ReorderedLists(hub, first, policy);
    FirstIsNotListed(first, policy, disabled, e);
    assert last.bindings[..|last.bindings| - 1] == hub.bindings[..k] + hub.bindings[k + 1..];
    LastIsListed(last, policy, disabled, o, c, e);
  }

  /** The placement list depends on the order of the bindings exactly when some restricted binding is
      not listed on its own account and shares a cluster with another restricted one. */
  lemma OrderMattersExactly(hub: Hub, policy: string, disabled: bool)
    requires WellNamed(hub)
    ensures OrderMatters(hub, policy, disabled) <==> !Settled(hub, policy, disabled)
  {
    if Settled(hub, policy, disabled) {
      forall other | Reordered(hub, other)
        ensures Placements(hub, policy, disabled) == Placements(other, policy, disabled)
      {
        SettledIgnoresOrder(hub, other, policy, disabled);
      }
    } else {
      UnsettledOrderMatters(hub, policy, disabled);
    }
  }

  /** In particular it does not when every cluster of a restricted binding is also listed by an
      unrestricted one. */
  lemma CoveredIsSettled(hub: Hub, policy: string, disabled: bool)
    requires Covered(hub, policy, disabled, hub.bindings, true) <= Base(hub, policy, disabled)
    ensures Settled(hub, policy, disabled)
  {
    forall b | b in hub.bindings && IsRestricted(b)
      ensures SettledFor(hub, policy, disabled, b)
    {
      var clusters := Clusters(hub, b, policy, disabled);
      if clusters != [] {
        MoreFound(clusters, clusters[0], Base(hub, policy, disabled));
      }
    }
  }
}
