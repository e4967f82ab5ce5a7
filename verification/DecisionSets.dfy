/**
The whole-policy view of placement: the decision set, the placement list and the status of a root
policy (controllers/common/common_status_update.go, and computeRemainingBindings in common.go).
*/
module DecisionSets {
  import opened Basics
  import opened Ordering
  import opened PolicySets
  import opened Placement

  /** A Placement in the status of a root policy. */
  datatype Entry = Entry(binding: string, placement: string, rule: string, policySet: string, exclusions: seq<string>)

  /** Cluster name to binding names. */
  type DecisionSet = map<string, seq<string>>

  /******* One binding *******/

  function DirectEntry(b: Binding): Entry
  {
    Entry(b.name, "", "", "", [])
  }

  function SetEntry(hub: Hub, b: Binding, name: string, policy: string): Entry
  {
    Entry(b.name, "", "", name, ExcludedClusters(SetOf(hub, name), policy))
  }

  /** The entries found so far, whether the policy itself was a subject, and the PolicySets looked at. */
  datatype Scan = Scan(entries: seq<Entry>, direct: bool, seen: set<string>)

  function ScanSubject(hub: Hub, b: Binding, policy: string, acc: Scan, s: Subject): Scan
  {
    if s.group != POLICY_GROUP then acc
    else if s.kind == POLICY_KIND then
      if !acc.direct && s.name == policy then acc.(direct := true, entries := acc.entries + [DirectEntry(b)]) else acc
    else if s.kind == POLICY_SET_KIND && s.name !in acc.seen then
      var entries := if Lists(SetOf(hub, s.name), policy) then [SetEntry(hub, b, s.name, policy)] else [];
      acc.(seen := acc.seen + {s.name}, entries := acc.entries + entries)
    else acc
  }

  function ScanSubjects(hub: Hub, b: Binding, policy: string, subjects: seq<Subject>): Scan
  {
    if subjects == [] then Scan([], false, {})
    else
      var n := |subjects| - 1;
      ScanSubject(hub, b, policy, ScanSubjects(hub, b, policy, subjects[..n]), subjects[n])
  }

  /** The entries the subjects give rise to, before the placement name is filled in: one for the policy
      itself, and one for each PolicySet that lists it. */
  function Raw(hub: Hub, b: Binding, policy: string): seq<Entry>
  {
    ScanSubjects(hub, b, policy, b.subjects).entries
  }

  /** The name of the PlacementRule or Placement is filled in if the object exists. */
  function Fill(hub: Hub, b: Binding, e: Entry): Entry
  {
    if b.ref.kind == "PlacementRule" then e.(rule := if b.ref.name in hub.rules then b.ref.name else "")
    else e.(placement := if b.ref.name in hub.placements then b.ref.name else "")
  }

  function FillAll(hub: Hub, b: Binding, es: seq<Entry>): seq<Entry>
  {
    seq(|es|, i requires 0 <= i < |es| => Fill(hub, b, es[i]))
  }

  function Entries(hub: Hub, b: Binding, policy: string): seq<Entry>
  {
    if ValidRef(b) then FillAll(hub, b, Raw(hub, b, policy)) else []
  }

  function Clusters(hub: Hub, b: Binding, policy: string, disabled: bool): seq<string>
  {
    if disabled || Raw(hub, b, policy) == [] then [] else Decisions(hub, b)
  }

  ghost predicate NamesPolicy(subjects: seq<Subject>, policy: string)
  {
    exists s :: s in subjects && DirectSubject(s, policy)
  }

  ghost predicate NamesSet(hub: Hub, subjects: seq<Subject>, policy: string, name: string)
  {
    exists s :: s in subjects && SetSubject(hub, s, policy) && s.name == name
  }

  /** What the loop over the subjects knows. */
  ghost predicate ScanOk(hub: Hub, b: Binding, policy: string, subjects: seq<Subject>, acc: Scan)
  {
    && (acc.direct <==> NamesPolicy(subjects, policy))
    && (forall n :: NamesSet(hub, subjects, policy, n) ==> n in acc.seen)
    && (forall n :: n in acc.seen && Lists(SetOf(hub, n), policy) ==> NamesSet(hub, subjects, policy, n))
    && (forall e :: e in acc.entries <==>
          || (e == DirectEntry(b) && NamesPolicy(subjects, policy))
          || (e == SetEntry(hub, b, e.policySet, policy) && NamesSet(hub, subjects, policy, e.policySet)))
  }

  lemma ScanStep(hub: Hub, b: Binding, policy: string, subjects: seq<Subject>, acc: Scan, s: Subject)
    requires ScanOk(hub, b, policy, subjects, acc)
    ensures ScanOk(hub, b, policy, subjects + [s], ScanSubject(hub, b, policy, acc, s))
  {
    var all := subjects + [s];
    assert forall x :: x in all <==> x in subjects || x == s;
    assert NamesPolicy(all, policy) <==> NamesPolicy(subjects, policy) || DirectSubject(s, policy);
    forall n
      ensures NamesSet(hub, all, policy, n) <==>
              NamesSet(hub, subjects, policy, n) || (SetSubject(hub, s, policy) && s.name == n)
    {
    }
  }

  lemma {:induction false} ScanMeaning(hub: Hub, b: Binding, policy: string, subjects: seq<Subject>)
    ensures ScanOk(hub, b, policy, subjects, ScanSubjects(hub, b, policy, subjects))
  {
    if subjects != [] {
      var n := |subjects| - 1;
      ScanMeaning(hub, b, policy, subjects[..n]);
      ScanStep(hub, b, policy, subjects[..n], ScanSubjects(hub, b, policy, subjects[..n]), subjects[n]);
      assert subjects[..n] + [subjects[n]] == subjects;
    }
  }

  /** A binding has entries for a policy exactly when it binds it. */
  lemma RawBinds(hub: Hub, b: Binding, policy: string)
    ensures Raw(hub, b, policy) != [] <==> Binds(hub, b, policy)
  {
    var raw := Raw(hub, b, policy);
    ScanMeaning(hub, b, policy, b.subjects);
    if raw != [] {
      assert raw[0] in raw;
    }
    if Binds(hub, b, policy) {
      var s :| s in b.subjects && BindsBy(hub, s, policy);
      var e := if DirectSubject(s, policy) then DirectEntry(b) else SetEntry(hub, b, s.name, policy);
      assert e in raw;
    }
  }

  lemma EntriesMeaning(hub: Hub, b: Binding, policy: string, e: Entry)
    ensures e in Entries(hub, b, policy) <==>
            && ValidRef(b)
            && (|| (e == Fill(hub, b, DirectEntry(b)) && NamesPolicy(b.subjects, policy))
                || (e == Fill(hub, b, SetEntry(hub, b, e.policySet, policy)) &&
                    NamesSet(hub, b.subjects, policy, e.policySet)))
  {
    var raw := Raw(hub, b, policy);
    ScanMeaning(hub, b, policy, b.subjects);
    if e in Entries(hub, b, policy) {
      var i :| 0 <= i < |raw| && e == Fill(hub, b, raw[i]);
      assert raw[i] in raw && e.policySet == raw[i].policySet;
    }
    if ValidRef(b) && e == Fill(hub, b, DirectEntry(b)) && NamesPolicy(b.subjects, policy) {
      FillIn(hub, b, policy, DirectEntry(b));
    }
    if ValidRef(b) && e == Fill(hub, b, SetEntry(hub, b, e.policySet, policy)) &&
       NamesSet(hub, b.subjects, policy, e.policySet) {
      FillIn(hub, b, policy, SetEntry(hub, b, e.policySet, policy));
    }
  }

  lemma FillIn(hub: Hub, b: Binding, policy: string, e: Entry)
    requires ValidRef(b) && e in Raw(hub, b, policy)
    ensures Fill(hub, b, e) in Entries(hub, b, policy)
  {
    var raw := Raw(hub, b, policy);
    var i :| 0 <= i < |raw| && raw[i] == e;
    assert Entries(hub, b, policy)[i] == Fill(hub, b, e);
  }

  /** What an entry of a binding says: which PlacementRule or Placement it refers to, if that exists, and
      either nothing more, for the policy itself, or a PolicySet that lists the policy, with its exclusions. */
  lemma EntryFields(hub: Hub, b: Binding, policy: string, e: Entry)
    requires e in Entries(hub, b, policy)
    ensures e.binding == b.name
    ensures e.rule == (if b.ref.kind == "PlacementRule" && b.ref.name in hub.rules then b.ref.name else "")
    ensures e.placement == (if b.ref.kind == "Placement" && b.ref.name in hub.placements then b.ref.name else "")
    ensures || (e.policySet == "" && e.exclusions == [] && NamesPolicy(b.subjects, policy))
            || (e.policySet in hub.policySets && policy in hub.policySets[e.policySet].policies &&
                e.exclusions == ExcludedClusters(Some(hub.policySets[e.policySet]), policy))
  {
    EntriesMeaning(hub, b, policy, e);
  }

  ghost predicate NoRepeat(es: seq<Entry>)
  {
    forall i, j :: 0 <= i < j < |es| ==> es[i] != es[j]
  }

  lemma NoRepeatSnoc(es: seq<Entry>, e: Entry)
    requires NoRepeat(es) && e !in es
    ensures NoRepeat(es + [e])
  {
    assert forall i :: 0 <= i < |es| ==> es[i] in es;
  }

  lemma ScanSubjectOnce(hub: Hub, b: Binding, policy: string, subjects: seq<Subject>, acc: Scan, s: Subject)
    requires "" !in hub.policySets && ScanOk(hub, b, policy, subjects, acc) && NoRepeat(acc.entries)
    ensures NoRepeat(ScanSubject(hub, b, policy, acc, s).entries)
  {
    if s.group == POLICY_GROUP && s.kind == POLICY_KIND && !acc.direct && s.name == policy {
      assert !NamesSet(hub, subjects, policy, "");
      NoRepeatSnoc(acc.entries, DirectEntry(b));
    } else if s.group == POLICY_GROUP && s.kind == POLICY_SET_KIND && s.name !in acc.seen &&
              Lists(SetOf(hub, s.name), policy) {
      assert !NamesSet(hub, subjects, policy, s.name);
      NoRepeatSnoc(acc.entries, SetEntry(hub, b, s.name, policy));
    } else {
      assert ScanSubject(hub, b, policy, acc, s).entries == acc.entries;
    }
  }

  lemma {:induction false} ScanOnce(hub: Hub, b: Binding, policy: string, subjects: seq<Subject>)
    requires "" !in hub.policySets
    ensures NoRepeat(ScanSubjects(hub, b, policy, subjects).entries)
  {
    if subjects != [] {
      var n := |subjects| - 1;
      ScanOnce(hub, b, policy, subjects[..n]);
      ScanMeaning(hub, b, policy, subjects[..n]);
      ScanSubjectOnce(hub, b, policy, subjects[..n], ScanSubjects(hub, b, policy, subjects[..n]), subjects[n]);
    }
  }

  /** However often a binding names the policy or a PolicySet, it has one entry for it. */
  lemma EntriesOnce(hub: Hub, b: Binding, policy: string)
    requires "" !in hub.policySets
    ensures NoRepeat(Entries(hub, b, policy))
  {
    var raw := Raw(hub, b, policy);
    ScanOnce(hub, b, policy, b.subjects);
    ScanMeaning(hub, b, policy, b.subjects);
    forall i, j | 0 <= i < j < |raw|
      ensures Fill(hub, b, raw[i]) != Fill(hub, b, raw[j])
    {
      assert raw[i] in raw && raw[j] in raw;
    }
  }

  /** The loop over the subjects of GetPolicyPlacementDecisions. */
  method SubjectEntries(hub: Hub, b: Binding, policy: string) returns (entries: seq<Entry>)
    ensures entries == Raw(hub, b, policy)
  {
    entries := [];
    var direct := false;
    var seen: set<string> := {};
    for i := 0 to |b.subjects|
      invariant Scan(entries, direct, seen) == ScanSubjects(hub, b, policy, b.subjects[..i])
    {
      var s := b.subjects[i];
      assert b.subjects[..i + 1][..i] == b.subjects[..i];
      if s.group == POLICY_GROUP {
        if s.kind == POLICY_KIND {
          if !direct && s.name == policy {
            direct := true;
            entries := entries + [DirectEntry(b)];
          }
        } else if s.kind == POLICY_SET_KIND {
          if s.name !in seen {
            seen := seen + {s.name};
            var policySet := SetOf(hub, s.name);
            if Lists(policySet, policy) {
              var excluded := ExcludedClustersForPolicy(policySet, policy);
              entries := entries + [Entry(b.name, "", "", s.name, excluded)];
            }
          }
        }
      }
    }
    assert b.subjects[..|b.subjects|] == b.subjects;
  }

  method GetPolicyPlacementDecisions(hub: Hub, policy: string, disabled: bool, b: Binding)
    returns (clusters: seq<string>, entries: seq<Entry>)
    ensures clusters == Clusters(hub, b, policy, disabled) && entries == Entries(hub, b, policy)
  {
    var raw := SubjectEntries(hub, b, policy);
    if raw == [] {
      return [], [];
    }
    if !ValidRef(b) {
      return [], [];
    }
    entries := raw;
    for i := 0 to |raw|
      invariant |entries| == |raw|
      invariant forall k :: 0 <= k < i ==> entries[k] == Fill(hub, b, raw[k])
      invariant forall k :: i <= k < |raw| ==> entries[k] == raw[k]
    {
      entries := entries[i := Fill(hub, b, entries[i])];
    }
    if disabled {
      return [], entries;
    }
    clusters := GetDecisions(hub, b);
  }

  /******* The decision set *******/

  /** The binding binds the policy and lists the cluster. */
  ghost predicate ListsCluster(hub: Hub, b: Binding, policy: string, c: string)
  {
    Binds(hub, b, policy) && c in Decisions(hub, b)
  }

  /** Some binding called `n` binds the policy and lists the cluster, and the policy is not disabled. */
  ghost predicate ListedBy(hub: Hub, policy: string, disabled: bool, c: string, n: string)
  {
    !disabled && exists b :: b in hub.bindings && b.name == n && ListsCluster(hub, b, policy, c)
  }

  /** Each key maps to the strictly sorted names of all bindings that bind the policy and list that
      cluster, and every cluster with such a binding is a key. */
  ghost predicate IsDecisionSet(hub: Hub, policy: string, disabled: bool, d: DecisionSet)
  {
    && (forall c :: c in d ==> d[c] != [] && StrictlySorted(d[c]))
    && (forall c, n :: n in At(d, c) <==> ListedBy(hub, policy, disabled, c, n))
  }

  function At(d: DecisionSet, c: string): seq<string>
  {
    if c in d then d[c] else []
  }

  /** Unsorted: no key without a binding and no binding twice. */
  ghost predicate Kept(d: DecisionSet)
  {
    && (forall c :: c in d ==> d[c] != [])
    && (forall c, i, j :: c in d && 0 <= i < j < |d[c]| ==> d[c][i] != d[c][j])
  }

  function AddBinding(d: DecisionSet, c: string, n: string): DecisionSet
  {
    if n in At(d, c) then d else d[c := At(d, c) + [n]]
  }

  lemma AddBindingMeaning(d: DecisionSet, c: string, n: string)
    requires Kept(d)
    ensures Kept(AddBinding(d, c, n))
    ensures forall x, m :: m in At(AddBinding(d, c, n), x) <==> m in At(d, x) || (m == n && x == c)
    ensures AddBinding(d, c, n).Keys == d.Keys + {c}
  {
    var r := AddBinding(d, c, n);
    forall x, i, j | x in r && 0 <= i < j < |r[x]|
      ensures r[x][i] != r[x][j]
    {
      if x == c && n !in At(d, c) {
        assert r[x] == At(d, c) + [n];
        assert At(d, c)[i] in At(d, c);
      }
    }
  }

  /** Some listed cluster was in the set before, or is listed twice. */
  ghost predicate Found(clusters: seq<string>, covered: set<string>)
  {
    exists k :: 0 <= k < |clusters| && (clusters[k] in covered || clusters[k] in clusters[..k])
  }

  /** `r` is `d` with the binding `n` added to each of the clusters. */
  ghost predicate Added(d: DecisionSet, r: DecisionSet, clusters: seq<string>, n: string)
  {
    && Kept(r)
    && (forall c, m :: m in At(r, c) <==> m in At(d, c) || (m == n && c in clusters))
    && r.Keys == d.Keys + set c | c in clusters
  }

  lemma AddedSnoc(d: DecisionSet, r: DecisionSet, clusters: seq<string>, n: string, c: string)
    requires Added(d, r, clusters, n)
    ensures Added(d, AddBinding(r, c, n), clusters + [c], n)
  {
    AddBindingMeaning(r, c, n);
    assert forall x :: x in clusters + [c] <==> x in clusters || x == c;
  }

  /** The loop that adds one binding's clusters; `found` is what the restricted pass looks at. */
  method AddClusters(d: DecisionSet, clusters: seq<string>, n: string) returns (r: DecisionSet, found: bool)
    requires Kept(d)
    ensures Added(d, r, clusters, n)
    ensures found <==> Found(clusters, d.Keys)
  {
    r, found := d, false;
    for i := 0 to |clusters|
      invariant Added(d, r, clusters[..i], n)
      invariant found <==> Found(clusters[..i], d.Keys)
    {
      var c := clusters[i];
      assert clusters[..i + 1] == clusters[..i] + [c];
      FoundSnoc(clusters[..i], c, d.Keys);
      AddedSnoc(d, r, clusters[..i], n, c);
      if c in r && r[c] != [] {
        found := true;
      }
      r := AddBinding(r, c, n);
    }
    assert clusters[..|clusters|] == clusters;
  }

  lemma FoundSnoc(clusters: seq<string>, c: string, covered: set<string>)
    ensures Found(clusters + [c], covered) <==> Found(clusters, covered) || c in covered || c in clusters
  {
    var all := clusters + [c];
    assert all[|clusters|] == c && all[..|clusters|] == clusters;
    forall k | 0 <= k < |clusters|
      ensures all[k] == clusters[k] && all[..k] == clusters[..k]
    {
    }
    if Found(clusters, covered) {
      var k :| 0 <= k < |clusters| && (clusters[k] in covered || clusters[k] in clusters[..k]);
      assert all[k] in covered || all[k] in all[..k];
    }
  }

  /** The clusters of the restricted, or of the unrestricted, bindings among `bs`. */
  ghost function Covered(hub: Hub, policy: string, disabled: bool, bs: seq<Binding>, restricted: bool): set<string>
  {
    set b, c | b in bs && IsRestricted(b) == restricted && c in Clusters(hub, b, policy, disabled) :: c
  }

  /** The placements of the unrestricted bindings, in order. */
  function Unrestricted(hub: Hub, policy: string, bs: seq<Binding>): seq<Entry>
  {
    if bs == [] then []
    else
      var init, b := bs[..|bs| - 1], bs[|bs| - 1];
      Unrestricted(hub, policy, init) + if IsRestricted(b) then [] else Entries(hub, b, policy)
  }

  /** The k-th binding is restricted, and one of its clusters is listed by an unrestricted or an earlier
      restricted binding, or twice by itself. */
  ghost predicate ListedAt(hub: Hub, policy: string, disabled: bool, bs: seq<Binding>, base: set<string>, k: nat)
    requires k < |bs|
  {
    && IsRestricted(bs[k])
    && Found(Clusters(hub, bs[k], policy, disabled), base + Covered(hub, policy, disabled, bs[..k], true))
  }

  /** The placements of the restricted bindings that are listed, in order. */
  ghost function Restricted(hub: Hub, policy: string, disabled: bool, bs: seq<Binding>, base: set<string>): seq<Entry>
  {
    if bs == [] then []
    else
      var n := |bs| - 1;
      Restricted(hub, policy, disabled, bs[..n], base) +
      if ListedAt(hub, policy, disabled, bs, base, n) then Entries(hub, bs[n], policy) else []
  }

  /** The sort key of the placement list. */
  function Key(e: Entry): string
  {
    e.binding + " " + e.placement + " " + e.rule + " " + e.policySet
  }

  ghost function Placements(hub: Hub, policy: string, disabled: bool): seq<Entry>
  {
    Sort(Unrestricted(hub, policy, hub.bindings) +
         Restricted(hub, policy, disabled, hub.bindings, Covered(hub, policy, disabled, hub.bindings, false)), Key)
  }

  /** What the two passes have gathered: the bindings among `bs` of the given kind. */
  ghost predicate Gathered(hub: Hub, policy: string, disabled: bool, bs: seq<Binding>, restricted: bool, c: string,
                           n: string)
  {
    exists b :: b in bs && IsRestricted(b) == restricted && b.name == n && c in Clusters(hub, b, policy, disabled)
  }

  lemma GatheredSnoc(hub: Hub, policy: string, disabled: bool, bs: seq<Binding>, b: Binding, restricted: bool)
    ensures forall c, n ::
              Gathered(hub, policy, disabled, bs + [b], restricted, c, n) <==>
              || Gathered(hub, policy, disabled, bs, restricted, c, n)
              || (IsRestricted(b) == restricted && b.name == n && c in Clusters(hub, b, policy, disabled))
  {
    assert forall x :: x in bs + [b] <==> x in bs || x == b;
  }

  lemma CoveredSnoc(hub: Hub, policy: string, disabled: bool, bs: seq<Binding>, b: Binding, restricted: bool)
    ensures Covered(hub, policy, disabled, bs + [b], restricted) ==
            Covered(hub, policy, disabled, bs, restricted) +
            if IsRestricted(b) == restricted then set c | c in Clusters(hub, b, policy, disabled) else {}
  {
    assert forall x :: x in bs + [b] <==> x in bs || x == b;
  }

  /** `d` is `first` with the bindings among `bs` of the given kind added. */
  ghost predicate Passed(hub: Hub, policy: string, disabled: bool, first: DecisionSet, bs: seq<Binding>,
                         restricted: bool, d: DecisionSet)
  {
    && Kept(d)
    && (forall c, n :: n in At(d, c) <==> n in At(first, c) || Gathered(hub, policy, disabled, bs, restricted, c, n))
    && d.Keys == first.Keys + Covered(hub, policy, disabled, bs, restricted)
  }

  lemma PassedSnoc(hub: Hub, policy: string, disabled: bool, first: DecisionSet, bs: seq<Binding>, restricted: bool,
                   d: DecisionSet, b: Binding, r: DecisionSet)
    requires Passed(hub, policy, disabled, first, bs, restricted, d)
    requires if IsRestricted(b) == restricted then Added(d, r, Clusters(hub, b, policy, disabled), b.name) else r == d
    ensures Passed(hub, policy, disabled, first, bs + [b], restricted, r)
  {
    GatheredSnoc(hub, policy, disabled, bs, b, restricted);
    CoveredSnoc(hub, policy, disabled, bs, b, restricted);
  }

  /** The pass over the bindings that are not restricted. */
  method UnrestrictedPass(hub: Hub, policy: string, disabled: bool) returns (d: DecisionSet, placements: seq<Entry>)
    ensures Passed(hub, policy, disabled, map[], hub.bindings, false, d)
    ensures placements == Unrestricted(hub, policy, hub.bindings)
  {
    d, placements := map[], [];
    for i := 0 to |hub.bindings|
      invariant Passed(hub, policy, disabled, map[], hub.bindings[..i], false, d)
      invariant placements == Unrestricted(hub, policy, hub.bindings[..i])
    {
      var b := hub.bindings[i];
      ghost var before := d;
      assert hub.bindings[..i + 1] == hub.bindings[..i] + [b];
      assert hub.bindings[..i + 1][..i] == hub.bindings[..i];
      if b.subFilter != RESTRICTED {
        var clusters, entries := GetPolicyPlacementDecisions(hub, policy, disabled, b);
        var found;
        d, found := AddClusters(d, clusters, b.name);
        placements := placements + entries;
      }
      PassedSnoc(hub, policy, disabled, map[], hub.bindings[..i], false, before, b, d);
    }
    assert hub.bindings[..|hub.bindings|] == hub.bindings;
  }

  /** The pass over the restricted bindings, on top of the first. */
  method RestrictedPass(hub: Hub, policy: string, disabled: bool, first: DecisionSet)
    returns (d: DecisionSet, placements: seq<Entry>)
    requires Kept(first)
    ensures Passed(hub, policy, disabled, first, hub.bindings, true, d)
    ensures placements == Restricted(hub, policy, disabled, hub.bindings, first.Keys)
  {
    d, placements := first, [];
    for i := 0 to |hub.bindings|
      invariant Passed(hub, policy, disabled, first, hub.bindings[..i], true, d)
      invariant placements == Restricted(hub, policy, disabled, hub.bindings[..i], first.Keys)
    {
      var b := hub.bindings[i];
      ghost var before := d;
      assert hub.bindings[..i + 1] == hub.bindings[..i] + [b];
      assert hub.bindings[..i + 1][..i] == hub.bindings[..i];
      if b.subFilter == RESTRICTED {
        var clusters, entries := GetPolicyPlacementDecisions(hub, policy, disabled, b);
        var found;
        d, found := AddClusters(d, clusters, b.name);
        if found {
          placements := placements + entries;
        }
      }
      PassedSnoc(hub, policy, disabled, first, hub.bindings[..i], true, before, b, d);
    }
    assert hub.bindings[..|hub.bindings|] == hub.bindings;
  }

  ghost predicate Arranged(d: DecisionSet, r: DecisionSet)
  {
    && r.Keys == d.Keys
    && (forall c :: c in r ==> r[c] != [] && StrictlySorted(r[c]))
    && (forall c, n :: n in At(r, c) <==> n in At(d, c))
  }

  /** sortDecisionSet; the order in which Go walks the map is left open. */
  method SortDecisionSet(d: DecisionSet) returns (r: DecisionSet)
    requires Kept(d)
    ensures Arranged(d, r)
  {
    r := d;
    var left := d.Keys;
    while left != {}
      invariant left <= d.Keys == r.Keys
      invariant forall c :: c in left ==> r[c] == d[c]
      invariant forall c :: c in r.Keys - left ==> r[c] != [] && StrictlySorted(r[c])
      invariant forall c, n :: n in At(r, c) <==> n in At(d, c)
    {
      var c :| c in left;
      SortDistinct(d[c]);
      assert d[c][0] in Sort(d[c], Itself);
      r := r[c := Sort(r[c], Itself)];
      left := left - {c};
    }
  }

  /** GetClusterDecisions on an error-free snapshot. */
  method GetClusterDecisions(hub: Hub, policy: string, disabled: bool)
    returns (placements: seq<Entry>, decisions: DecisionSet)
    ensures IsDecisionSet(hub, policy, disabled, decisions)
    ensures placements == Placements(hub, policy, disabled)
  {
    var first, unrestricted := UnrestrictedPass(hub, policy, disabled);
    var both, restricted := RestrictedPass(hub, policy, disabled, first);
    decisions := SortDecisionSet(both);
    placements := Sort(unrestricted + restricted, Key);
    PassedKeys(hub, policy, disabled, first);
    BothPasses(hub, policy, disabled, first, both, decisions);
  }

  lemma PassedKeys(hub: Hub, policy: string, disabled: bool, first: DecisionSet)
    requires Passed(hub, policy, disabled, map[], hub.bindings, false, first)
    ensures first.Keys == Covered(hub, policy, disabled, hub.bindings, false)
  {
  }

  lemma BothPasses(hub: Hub, policy: string, disabled: bool, first: DecisionSet, both: DecisionSet, d: DecisionSet)
    requires Passed(hub, policy, disabled, map[], hub.bindings, false, first)
    requires Passed(hub, policy, disabled, first, hub.bindings, true, both)
    requires Arranged(both, d)
    ensures IsDecisionSet(hub, policy, disabled, d)
  {
    forall c, n
      ensures n in At(d, c) <==> ListedBy(hub, policy, disabled, c, n)
    {
      GatheredMeaning(hub, policy, disabled, c, n);
    }
  }

  lemma ClustersMeaning(hub: Hub, b: Binding, policy: string, disabled: bool, c: string)
    ensures c in Clusters(hub, b, policy, disabled) <==> !disabled && ListsCluster(hub, b, policy, c)
  {
    RawBinds(hub, b, policy);
  }

  lemma GatheredMeaning(hub: Hub, policy: string, disabled: bool, c: string, n: string)
    ensures (Gathered(hub, policy, disabled, hub.bindings, false, c, n) ||
             Gathered(hub, policy, disabled, hub.bindings, true, c, n)) <==>
            ListedBy(hub, policy, disabled, c, n)
  {
    forall b
      ensures c in Clusters(hub, b, policy, disabled) <==> !disabled && ListsCluster(hub, b, policy, c)
    {
      ClustersMeaning(hub, b, policy, disabled, c);
    }
    if ListedBy(hub, policy, disabled, c, n) {
      var b :| b in hub.bindings && b.name == n && ListsCluster(hub, b, policy, c);
      assert Gathered(hub, policy, disabled, hub.bindings, IsRestricted(b), c, n);
    }
  }
}
