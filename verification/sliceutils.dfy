/**
  pkg/sliceutils. A Go slice is a `seq`; a `map[T]struct{}` is a `set`; nil and
  empty slices are the same value.
 */
module SliceUtils {

  predicate Distinct<T(==)>(s: seq<T>) {
    forall i, j :: 0 <= i < j < |s| ==> s[i] != s[j]
  }

  function Elements<T>(s: seq<T>): set<T> {
    set x | x in s
  }

  // The pigeonhole fact behind every "compare the lengths" shortcut: a list has
  // as many elements as entries exactly when no entry repeats.
  lemma {:induction false} DistinctCount<T>(s: seq<T>)
    ensures |Elements(s)| <= |s|
    ensures Distinct(s) <==> |Elements(s)| == |s|
  {
    if s == [] {
      assert Elements(s) == {};
    } else {
      var front, last := s[..|s| - 1], s[|s| - 1];
      DistinctCount(front);
      assert s == front + [last];
      assert Elements(s) == Elements(front) + {last};
      if last in front {
        assert Elements(s) == Elements(front);
        var i :| 0 <= i < |front| && front[i] == last;
        assert s[i] == s[|s| - 1];
      } else {
        assert |Elements(s)| == |Elements(front)| + 1;
        assert forall i, j :: 0 <= i < j < |front| ==> s[i] == front[i] && s[j] == front[j];
        assert Distinct(s) <==> Distinct(front) by {
          assert forall i :: 0 <= i < |front| ==> s[i] in front;
        }
      }
    }
  }

  // A set inside another of the same size is that set.
  lemma SubsetSameSize<T>(a: set<T>, b: set<T>)
    requires a <= b && |a| == |b|
    ensures a == b
  {
    assert |b - a| == |b| - |a|;
    assert b - a == {};
    assert b == a + (b - a);
  }

  // maps.Keys: every element once, in no particular order.
  method Keys<T(==)>(items: set<T>) returns (ks: seq<T>)
    ensures Distinct(ks) && Elements(ks) == items && |ks| == |items|
  {
    ks := [];
    var rest := items;
    while rest != {}
      invariant rest <= items && Distinct(ks)
      invariant Elements(ks) == items - rest
      decreases rest
    {
      var x :| x in rest;
      assert x !in Elements(ks);
      ghost var before := ks;
      ks := ks + [x];
      assert Elements(ks) == Elements(before) + {x};
      rest := rest - {x};
    }
    DistinctCount(ks);
  }

  method UniqueMergeSlices<T(==)>(slice: seq<T>, elems: seq<T>) returns (merged: seq<T>)
    ensures Distinct(merged)
    ensures Elements(merged) == Elements(slice) + Elements(elems)
    ensures |merged| == |Elements(slice) + Elements(elems)|
  {
    var items := {};
    for i := 0 to |slice|
      invariant items == Elements(slice[..i])
    {
      assert slice[..i + 1] == slice[..i] + [slice[i]];
      if slice[i] !in items {
        items := items + {slice[i]};
      }
    }
    assert slice[..|slice|] == slice;
    for i := 0 to |elems|
      invariant items == Elements(slice) + Elements(elems[..i])
    {
      assert elems[..i + 1] == elems[..i] + [elems[i]];
      if elems[i] !in items {
        items := items + {elems[i]};
      }
    }
    assert elems[..|elems|] == elems;
    merged := Keys(items);
  }

  method RemoveDuplicates<T(==)>(slice: seq<T>) returns (unique: seq<T>)
    ensures Distinct(unique) && Elements(unique) == Elements(slice)
  {
    var items := {};
    for i := 0 to |slice|
      invariant items == Elements(slice[..i])
    {
      assert slice[..i + 1] == slice[..i] + [slice[i]];
      if slice[i] !in items {
        items := items + {slice[i]};
      }
    }
    assert slice[..|slice|] == slice;
    unique := Keys(items);
  }

  method Compare<T(==)>(slice: seq<T>, element: T) returns (found: bool)
    ensures found <==> element in slice
  {
    for i := 0 to |slice|
      invariant element !in slice[..i]
    {
      if slice[i] == element {
        return true;
      }
    }
    return false;
  }

  // The counts that `diff` holds: the positive counts of a multiset.
  ghost predicate Counts<T>(diff: map<T, int>, m: multiset<T>) {
    && diff.Keys == (set x | x in m)
    && (forall x :: x in diff ==> diff[x] == m[x])
  }

  lemma CountUp<T>(diff: map<T, int>, m: multiset<T>, x: T)
    requires Counts(diff, m)
    ensures Counts(diff[x := (if x in diff then diff[x] else 0) + 1], m + multiset{x})
  {
  }

  lemma CountDown<T>(diff: map<T, int>, m: multiset<T>, x: T)
    requires Counts(diff, m) && x in diff
    ensures diff[x] > 1 ==> Counts(diff[x := diff[x] - 1], m - multiset{x})
    ensures diff[x] == 1 ==> Counts(diff - {x}, m - multiset{x})
  {
    assert forall y :: y in m - multiset{x} <==> y in m && (y == x ==> m[x] > 1);
  }

  lemma CountsNothing<T>()
    ensures Counts<T>(map[], multiset{})
  {
  }

  lemma CountOf<T>(diff: map<T, int>, m: multiset<T>)
    requires Counts(diff, m)
    ensures forall x :: (x in diff <==> x in m) && (x in diff ==> diff[x] == m[x] && diff[x] > 0)
    ensures |diff| == 0 <==> m == multiset{}
  {
  }

  // More copies seen than there are: the slices differ.
  lemma Mismatch<T>(s1: seq<T>, s2: seq<T>, i: nat, left: multiset<T>)
    requires i < |s2| && multiset(s1) == multiset(s2[..i]) + left && s2[i] !in left
    ensures multiset(s1) != multiset(s2)
  {
    assert s2 == s2[..i] + [s2[i]] + s2[i + 1..];
    assert multiset(s2)[s2[i]] > multiset(s2[..i])[s2[i]];
  }

  lemma NothingLeft<T>(a: multiset<T>, b: multiset<T>, left: multiset<T>)
    requires a == b + left && |a| == |b|
    ensures left == multiset{} && a == b
  {
  }

  // Equality of two slices regardless of order, in one pass over each.
  method IsSlicesEqual<T(==)>(s1: seq<T>, s2: seq<T>) returns (equal: bool)
    ensures equal <==> multiset(s1) == multiset(s2)
  {
    hide Counts;
    if |s1| != |s2| {
      assert |multiset(s1)| != |multiset(s2)|;
      return false;
    }
    var diff: map<T, int> := map[];
    CountsNothing<T>();
    for i := 0 to |s1|
      invariant Counts(diff, multiset(s1[..i]))
    {
      assert s1[..i + 1] == s1[..i] + [s1[i]];
      CountUp(diff, multiset(s1[..i]), s1[i]);
      diff := diff[s1[i] := (if s1[i] in diff then diff[s1[i]] else 0) + 1];
    }
    assert s1[..|s1|] == s1;
    ghost var left := multiset(s1);
    for i := 0 to |s2|
      invariant multiset(s1) == multiset(s2[..i]) + left
      invariant Counts(diff, left)
    {
      CountOf(diff, left);
      if s2[i] !in diff {
        Mismatch(s1, s2, i, left);
        return false;
      }
      assert s2[..i + 1] == s2[..i] + [s2[i]];
      CountDown(diff, left, s2[i]);
      assert diff[s2[i] := 0] - {s2[i]} == diff - {s2[i]};
      left := left - multiset{s2[i]};
      diff := diff[s2[i] := diff[s2[i]] - 1];
      if diff[s2[i]] == 0 {
        diff := diff - {s2[i]};
      }
    }
    assert s2[..|s2|] == s2;
    NothingLeft(multiset(s1), multiset(s2), left);
    CountOf(diff, left);
    equal := |diff| == 0;
  }

  // The representatives that an order-dependent filter keeps.
  ghost function Representatives<T>(slice: seq<T>, equals: (T, T) -> bool): seq<T> {
    if slice == [] then []
    else
      var front, last := slice[..|slice| - 1], slice[|slice| - 1];
      var unique := Representatives(front, equals);
      if exists u :: u in unique && equals(last, u) then unique else unique + [last]
  }

  method RemoveDuplicatesFunc<T>(slice: seq<T>, equals: (T, T) -> bool) returns (unique: seq<T>)
    ensures unique == Representatives(slice, equals)
  {
    unique := [];
    for i := 0 to |slice|
      invariant unique == Representatives(slice[..i], equals)
    {
      assert slice[..i + 1][..i] == slice[..i];
      var skip := false;
      for j := 0 to |unique|
        invariant !skip
        invariant forall k :: 0 <= k < j ==> !equals(slice[i], unique[k])
      {
        if equals(slice[i], unique[j]) {
          skip := true;
          break;
        }
      }
      if !skip {
        unique := unique + [slice[i]];
      }
    }
    assert slice[..|slice|] == slice;
  }

  // Position k holds the first member of u's class.
  ghost predicate FirstOfClass<T>(slice: seq<T>, equals: (T, T) -> bool, u: T, k: nat) {
    k < |slice| && slice[k] == u && forall m :: 0 <= m < k ==> !equals(slice[m], u)
  }

  // For an equivalence, every class of the slice is kept exactly once, and by
  // its first member.
  lemma {:induction false} RepresentativesOnePerClass<T(!new)>(slice: seq<T>, equals: (T, T) -> bool)
    requires forall x :: equals(x, x)
    requires forall x, y :: equals(x, y) ==> equals(y, x)
    requires forall x, y, z :: equals(x, y) && equals(y, z) ==> equals(x, z)
    ensures forall x :: x in slice ==> exists u :: u in Representatives(slice, equals) && equals(x, u)
    ensures forall i, j :: 0 <= i < j < |Representatives(slice, equals)| ==>
              !equals(Representatives(slice, equals)[i], Representatives(slice, equals)[j])
    ensures forall u :: u in Representatives(slice, equals) ==> exists k :: FirstOfClass(slice, equals, u, k)
  {
    if slice != [] {
      var front, last := slice[..|slice| - 1], slice[|slice| - 1];
      RepresentativesOnePerClass(front, equals);
      var kept, unique := Representatives(front, equals), Representatives(slice, equals);
      assert slice == front + [last];
      forall u | u in unique
        ensures exists k :: FirstOfClass(slice, equals, u, k)
      {
        if u in kept {
          var k :| FirstOfClass(front, equals, u, k);
          assert FirstOfClass(slice, equals, u, k);
        } else {
          forall m | 0 <= m < |front| ensures !equals(slice[m], u) {
            assert front[m] in front;
            var w :| w in kept && equals(front[m], w);
          }
          assert FirstOfClass(slice, equals, u, |front|);
        }
      }
      forall x | x in slice ensures exists u :: u in unique && equals(x, u) {
        if x in front {
          var u :| u in kept && equals(x, u);
          assert u in unique;
        } else {
          assert x == last && equals(x, x);
        }
      }
    }
  }

  // An element whose class does not occur before it is not kept only if its class is.
  lemma FirstOrKept<T(!new)>(front: seq<T>, last: T, equals: (T, T) -> bool, m: nat)
    requires forall x :: equals(x, x)
    requires forall x, y :: equals(x, y) ==> equals(y, x)
    requires forall x, y, z :: equals(x, y) && equals(y, z) ==> equals(x, z)
    requires FirstOfClass(front + [last], equals, last, m)
    ensures m == |front| || exists u :: u in Representatives(front, equals) && equals(last, u)
  {
    RepresentativesOnePerClass(front, equals);
    if m < |front| {
      assert front[m] == last && last in front;
    }
  }

  // They are kept in the order in which their classes first occur.
  lemma {:induction false} RepresentativesInOrder<T(!new)>(slice: seq<T>, equals: (T, T) -> bool, i: nat, j: nat,
                                                           k: nat, m: nat)
    requires forall x :: equals(x, x)
    requires forall x, y :: equals(x, y) ==> equals(y, x)
    requires forall x, y, z :: equals(x, y) && equals(y, z) ==> equals(x, z)
    requires i < j < |Representatives(slice, equals)|
    requires FirstOfClass(slice, equals, Representatives(slice, equals)[i], k)
    requires FirstOfClass(slice, equals, Representatives(slice, equals)[j], m)
    ensures k < m
  {
    var n := |slice| - 1;
    var front, last := slice[..n], slice[n];
    var kept := Representatives(front, equals);
    RepresentativesOnePerClass(front, equals);
    assert kept[i] in kept;
    var k0: nat :| FirstOfClass(front, equals, kept[i], k0);
    assert equals(slice[k0], kept[i]) && k0 == k;
    if j < |kept| {
      assert kept[j] in kept;
      var m0: nat :| FirstOfClass(front, equals, kept[j], m0);
      assert equals(slice[m0], kept[j]) && m0 == m;
      RepresentativesInOrder(front, equals, i, j, k, m);
    } else {
      assert slice == front + [last];
      FirstOrKept(front, last, equals, m);
    }
  }
}
