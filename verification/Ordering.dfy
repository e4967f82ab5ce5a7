/** Go's string order and its sort functions. */
module Ordering {

  /** a < b: by code point, a proper prefix first. */
  predicate Less(a: string, b: string)
  {
    b != [] && (a == [] || a[0] < b[0] || (a[0] == b[0] && Less(a[1..], b[1..])))
  }

  predicate Leq(a: string, b: string)
  {
    !Less(b, a)
  }

  lemma {:induction false} LessIrreflexive(a: string)
    ensures !Less(a, a)
  {
    if a != [] {
      LessIrreflexive(a[1..]);
    }
  }

  lemma {:induction false} LessTransitive(a: string, b: string, c: string)
    requires Less(a, b) && Less(b, c)
    ensures Less(a, c)
  {
    if a != [] && a[0] == b[0] == c[0] {
      LessTransitive(a[1..], b[1..], c[1..]);
    }
  }

  lemma {:induction false} LessTotal(a: string, b: string)
    ensures Less(a, b) || a == b || Less(b, a)
  {
    if a != [] && b != [] && a[0] == b[0] {
      LessTotal(a[1..], b[1..]);
      assert a == [a[0]] + a[1..] && b == [b[0]] + b[1..];
    }
  }

  lemma LeqTransitive(a: string, b: string, c: string)
    requires Leq(a, b) && Leq(b, c)
    ensures Leq(a, c)
  {
    if Less(c, a) {
      LessTotal(a, b);
      if a != b {
        LessTransitive(c, a, b);
      }
    }
  }

  lemma LeqAntisymmetric(a: string, b: string)
    requires Leq(a, b) && Leq(b, a)
    ensures a == b
  {
    LessTotal(a, b);
  }

  /******* Sorting by a string key *******/

  ghost predicate SortedBy<T>(s: seq<T>, key: T -> string)
  {
    forall i, j :: 0 <= i < j < |s| ==> Leq(key(s[i]), key(s[j]))
  }

  ghost predicate StrictlySorted(s: seq<string>)
  {
    forall i, j :: 0 <= i < j < |s| ==> Less(s[i], s[j])
  }

  /** `x` goes before the first element that is not smaller. */
  function Insert<T>(x: T, s: seq<T>, key: T -> string): (r: seq<T>)
    requires SortedBy(s, key)
    ensures SortedBy(r, key) && multiset(r) == multiset{x} + multiset(s)
  {
    if s == [] || !Less(key(s[0]), key(x)) then
      assert SortedBy([x] + s, key) by { InsertFirst(x, s, key); }
      [x] + s
    else
      var r := [s[0]] + Insert(x, s[1..], key);
      assert SortedBy(r, key) by { InsertLater(x, s, key, Insert(x, s[1..], key)); }
      assert s == [s[0]] + s[1..];
      r
  }

  lemma InsertFirst<T>(x: T, s: seq<T>, key: T -> string)
    requires SortedBy(s, key) && (s == [] || !Less(key(s[0]), key(x)))
    ensures SortedBy([x] + s, key)
  {
    var r := [x] + s;
    forall i, j | 0 <= i < j < |r|
      ensures Leq(key(r[i]), key(r[j]))
    {
      if i == 0 && j > 1 {
        LeqTransitive(key(x), key(s[0]), key(s[j - 1]));
      }
    }
  }

  lemma InsertLater<T>(x: T, s: seq<T>, key: T -> string, rest: seq<T>)
    requires SortedBy(s, key) && s != [] && Less(key(s[0]), key(x))
    requires SortedBy(rest, key) && multiset(rest) == multiset{x} + multiset(s[1..])
    ensures SortedBy([s[0]] + rest, key)
  {
    var r := [s[0]] + rest;
    forall j | 0 <= j < |rest|
      ensures Leq(key(s[0]), key(rest[j]))
    {
      assert rest[j] in multiset(rest);
      if rest[j] == x {
        if Less(key(x), key(s[0])) {
          LessTransitive(key(x), key(s[0]), key(x));
          LessIrreflexive(key(x));
        }
      } else {
        assert rest[j] in s[1..];
        var k :| 0 <= k < |s[1..]| && s[1..][k] == rest[j];
        assert s[k + 1] == rest[j];
      }
    }
  }

  /** sort.SliceStable, sort.Slice, slices.SortFunc, sort.Strings, slices.Sort */
  function Sort<T>(s: seq<T>, key: T -> string): (r: seq<T>)
    ensures SortedBy(r, key) && multiset(r) == multiset(s)
  {
    if s == [] then [] else
      assert s == [s[0]] + s[1..];
      Insert(s[0], Sort(s[1..], key), key)
  }

  function Itself(x: string): string
  {
    x
  }

  lemma FirstIsLeast<T>(s: seq<T>, key: T -> string, x: T)
    requires SortedBy(s, key) && x in s
    ensures Leq(key(s[0]), key(x))
  {
    var i :| 0 <= i < |s| && s[i] == x;
    LessIrreflexive(key(x));
  }

  lemma SameFirst<T>(a: seq<T>, b: seq<T>, key: T -> string)
    requires SortedBy(a, key) && SortedBy(b, key) && multiset(a) == multiset(b) && a != [] && b != []
    requires forall x, y :: x in a && y in a && key(x) == key(y) ==> x == y
    ensures a[0] == b[0]
  {
    assert a[0] in multiset(b) && b[0] in multiset(a);
    FirstIsLeast(a, key, b[0]);
    FirstIsLeast(b, key, a[0]);
    LeqAntisymmetric(key(a[0]), key(b[0]));
  }

  lemma RestMultiset<T>(s: seq<T>)
    requires s != []
    ensures multiset(s[1..]) == multiset(s) - multiset{s[0]}
  {
    assert s == [s[0]] + s[1..];
  }

  /** A sorted arrangement is unique when different elements have different keys. */
  lemma {:induction false} SortedUnique<T>(a: seq<T>, b: seq<T>, key: T -> string)
    requires SortedBy(a, key) && SortedBy(b, key) && multiset(a) == multiset(b)
    requires forall x, y :: x in a && y in a && key(x) == key(y) ==> x == y
    ensures a == b
  {
    assert |a| == |multiset(a)| == |multiset(b)| == |b|;
    if a != [] {
      SameFirst(a, b, key);
      RestMultiset(a);
      RestMultiset(b);
      SortedUnique(a[1..], b[1..], key);
      assert a == [a[0]] + a[1..] && b == [b[0]] + b[1..];
    }
  }

  /** slices.Compact: drop an element equal to the one before it. */
  function Compact(s: seq<string>): seq<string>
  {
    if |s| < 2 then s
    else if s[0] == s[1] then Compact(s[1..])
    else [s[0]] + Compact(s[1..])
  }

  lemma {:induction false} CompactSorted(s: seq<string>)
    requires SortedBy(s, Itself)
    ensures StrictlySorted(Compact(s))
    ensures forall x :: x in Compact(s) <==> x in s
    ensures s != [] ==> Compact(s) != [] && Compact(s)[0] == s[0]
  {
    if |s| >= 2 {
      assert SortedBy(s[1..], Itself);
      CompactSorted(s[1..]);
      assert s == [s[0]] + s[1..];
      if s[0] != s[1] {
        var r := Compact(s[1..]);
        forall j | 0 <= j < |r|
          ensures Less(s[0], r[j])
        {
          assert Leq(Itself(s[0]), Itself(s[1]));
          LessTotal(s[0], s[1]);
          assert r[0] == s[1];
          if j > 0 {
            LessTransitive(s[0], r[0], r[j]);
          }
        }
      }
    }
  }

  lemma StrictIsSorted(s: seq<string>)
    requires StrictlySorted(s)
    ensures SortedBy(s, Itself)
    ensures forall i, j :: 0 <= i < j < |s| ==> s[i] != s[j]
  {
    forall i, j | 0 <= i < j < |s|
      ensures Leq(Itself(s[i]), Itself(s[j])) && s[i] != s[j]
    {
      LessIrreflexive(s[i]);
      if Less(s[j], s[i]) {
        LessTransitive(s[i], s[j], s[i]);
      }
    }
  }

  /** A set of strings has one strictly sorted listing. */
  lemma {:induction false} StrictUnique(a: seq<string>, b: seq<string>)
    requires StrictlySorted(a) && StrictlySorted(b)
    requires forall x :: x in a <==> x in b
    ensures a == b
  {
    StrictIsSorted(a);
    StrictIsSorted(b);
    DistinctMultiset(a, b);
    SortedUnique(a, b, Itself);
  }

  lemma DistinctMultiset<T>(a: seq<T>, b: seq<T>)
    requires forall i, j :: 0 <= i < j < |a| ==> a[i] != a[j]
    requires forall i, j :: 0 <= i < j < |b| ==> b[i] != b[j]
    requires forall x :: x in a <==> x in b
    ensures multiset(a) == multiset(b)
  {
    forall x
      ensures multiset(a)[x] == multiset(b)[x]
    {
      DistinctOnce(a, x);
      DistinctOnce(b, x);
    }
  }

  lemma {:induction false} DistinctOnce<T>(a: seq<T>, x: T)
    requires forall i, j :: 0 <= i < j < |a| ==> a[i] != a[j]
    ensures multiset(a)[x] == if x in a then 1 else 0
  {
    if a != [] {
      assert a == [a[0]] + a[1..];
      DistinctOnce(a[1..], x);
    }
  }

  /** Sorting distinct strings gives the strictly sorted listing. */
  lemma SortDistinct(s: seq<string>)
    requires forall i, j :: 0 <= i < j < |s| ==> s[i] != s[j]
    ensures StrictlySorted(Sort(s, Itself)) && (forall x :: x in Sort(s, Itself) <==> x in s)
  {
    var r := Sort(s, Itself);
    assert forall x :: x in r <==> x in multiset(r);
    forall i, j | 0 <= i < j < |r|
      ensures Less(r[i], r[j])
    {
      assert Leq(Itself(r[i]), Itself(r[j]));
      LessTotal(r[i], r[j]);
      if r[i] == r[j] {
        DistinctOnce(s, r[i]);
        TwiceCounted(r, i, j);
      }
    }
  }

  lemma TwiceCounted<T>(s: seq<T>, i: nat, j: nat)
    requires i < j < |s| && s[i] == s[j]
    ensures multiset(s)[s[i]] >= 2
  {
    assert s == s[..j] + [s[j]] + s[j + 1..];
    assert s[i] in s[..j];
  }
}
