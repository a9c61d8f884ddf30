/**
 * `Array.prototype.sort()` with no comparator on an array of integer Numbers. The default
 * comparator converts both elements to strings and compares the strings, so the array ends up in
 * the order of its elements' decimal texts ("10" before "9"), not in numeric order.
 */
module JsSort {
  import opened JsString

  /** The key the default comparator orders by: the element's decimal text. */
  function SortKey(x: int): string
  {
    IntToString(x)
  }

  /** `x` may stand before `y` in the sorted array. */
  predicate KeyLe(x: int, y: int)
  {
    StringLe(SortKey(x), SortKey(y))
  }

  predicate Sorted(s: seq<int>)
  {
    forall i, j :: 0 <= i < j < |s| ==> KeyLe(s[i], s[j])
  }

  /** Puts `x` in front of the first element whose key is not smaller than its own. */
  function Insert(x: int, s: seq<int>): seq<int>
  {
    if s == [] then [x]
    else if KeyLe(x, s[0]) then [x] + s
    else [s[0]] + Insert(x, s[1..])
  }

  /** Inserting into a sorted array keeps it sorted and adds exactly `x`. */
  lemma {:induction false} InsertSpec(x: int, s: seq<int>)
    requires Sorted(s)
    ensures Sorted(Insert(x, s))
    ensures multiset(Insert(x, s)) == multiset(s) + multiset{x}
  {
    if s == [] {
    } else if KeyLe(x, s[0]) {
      InsertFrontSorted(x, s);
      assert s == [s[0]] + s[1..];
    } else {
      StringLessTotal(SortKey(x), SortKey(s[0]));
      assert Sorted(s[1..]) by {
        forall i, j | 0 <= i < j < |s[1..]|
          ensures KeyLe(s[1..][i], s[1..][j])
        {
          assert s[1..][i] == s[i + 1] && s[1..][j] == s[j + 1];
        }
      }
      InsertSpec(x, s[1..]);
      var rest := Insert(x, s[1..]);
      assert s == [s[0]] + s[1..];
      HeadBelowAll(s[0], rest, s[1..], x);
    }
  }

  lemma InsertFrontSorted(x: int, s: seq<int>)
    requires Sorted(s) && s != [] && KeyLe(x, s[0])
    ensures Sorted([x] + s)
  {
    var r := [x] + s;
    forall i, j | 0 <= i < j < |r|
      ensures KeyLe(r[i], r[j])
    {
      if i == 0 && j > 1 {
        StringLeTransitive(SortKey(x), SortKey(s[0]), SortKey(s[j - 1]));
      }
    }
  }

  lemma HeadBelowAll(h: int, rest: seq<int>, s: seq<int>, x: int)
    requires Sorted(rest) && Sorted([h] + s) && KeyLe(h, x)
    requires multiset(rest) == multiset(s) + multiset{x}
    ensures Sorted([h] + rest)
  {
    var r := [h] + rest;
    forall i, j | 0 <= i < j < |r|
      ensures KeyLe(r[i], r[j])
    {
      if i == 0 {
        var y := rest[j - 1];
        assert y in multiset(rest);
        if y != x {
          assert y in multiset(s);
          var k :| 0 <= k < |s| && s[k] == y;
          assert ([h] + s)[0] == h && ([h] + s)[k + 1] == y;
        }
        assert r[i] == h && r[j] == y;
      } else {
        assert r[i] == rest[i - 1] && r[j] == rest[j - 1];
      }
    }
  }

  /** The array after the default `sort()`, as an insertion sort. */
  function DefaultSort(s: seq<int>): seq<int>
  {
    if s == [] then [] else Insert(s[0], DefaultSort(s[1..]))
  }

  /** The default `sort()` keeps the same elements and puts them in order of their decimal texts. */
  lemma {:induction false} DefaultSortSpec(s: seq<int>)
    ensures Sorted(DefaultSort(s))
    ensures multiset(DefaultSort(s)) == multiset(s)
  {
    if s != [] {
      DefaultSortSpec(s[1..]);
      InsertSpec(s[0], DefaultSort(s[1..]));
      assert s == [s[0]] + s[1..];
    }
  }

  /**
   * Any two sorted arrangements of the same elements are equal, because no two different
   * integers share a decimal text. So the model's insertion sort gives exactly what any
   * conforming engine's sort gives.
   */
  lemma {:induction false} SortedPermutationUnique(a: seq<int>, b: seq<int>)
    requires Sorted(a) && Sorted(b) && multiset(a) == multiset(b)
    ensures a == b
  {
    if a == [] {
      assert |b| == |multiset(b)| == 0;
    } else {
      assert a[0] in multiset(b);
      SortedHeadsEqual(a, b);
      assert a == [a[0]] + a[1..] && b == [b[0]] + b[1..];
      assert multiset(a[1..]) == multiset(a) - multiset{a[0]};
      assert multiset(b[1..]) == multiset(b) - multiset{b[0]};
      SortedPermutationUnique(a[1..], b[1..]);
    }
  }

  /** Two sorted arrangements of the same elements start with the same element. */
  lemma SortedHeadsEqual(a: seq<int>, b: seq<int>)
    requires Sorted(a) && Sorted(b) && multiset(a) == multiset(b) && a != [] && b != []
    ensures a[0] == b[0]
  {
    assert b[0] in multiset(a) && a[0] in multiset(b);
    var i :| 0 <= i < |a| && a[i] == b[0];
    var j :| 0 <= j < |b| && b[j] == a[0];
    var ka, kb := SortKey(a[0]), SortKey(b[0]);
    assert StringLe(ka, kb) by { if i > 0 { assert KeyLe(a[0], a[i]); } }
    assert StringLe(kb, ka) by { if j > 0 { assert KeyLe(b[0], b[j]); } }
    StringLeAntisymmetric(ka, kb);
    IntToStringInjective(a[0], b[0]);
  }

  /** The last element of a sorted non-empty array has the greatest decimal text. */
  lemma LastIsGreatest(s: seq<int>)
    requires Sorted(s) && s != []
    ensures forall x :: x in s ==> KeyLe(x, s[|s| - 1])
  {
    forall x | x in s
      ensures KeyLe(x, s[|s| - 1])
    {
      var i :| 0 <= i < |s| && s[i] == x;
    }
  }
}
