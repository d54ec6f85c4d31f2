/**
 Python's ordering of `str` values and `list.sort` on a list of strings.
 Python compares strings code point by code point, and a proper prefix
 comes first. That ordering is total, so a list of strings has exactly one
 sorted permutation, and any correct sort (Python's stable sort included)
 returns it. Sort below is an insertion sort that yields that permutation.
 */
module StringOrder {

  /** Python's `a <= b` on `str`. */
  predicate LessEq(a: string, b: string)
  {
    a == [] || (b != [] && (a[0] < b[0] || (a[0] == b[0] && LessEq(a[1..], b[1..]))))
  }

  lemma {:induction false} LessEqReflexive(a: string)
    ensures LessEq(a, a)
  {
    if a != [] {
      LessEqReflexive(a[1..]);
    }
  }

  lemma {:induction false} LessEqAntisymmetric(a: string, b: string)
    requires LessEq(a, b) && LessEq(b, a)
    ensures a == b
  {
    if a != [] && b != [] {
      LessEqAntisymmetric(a[1..], b[1..]);
      assert a == [a[0]] + a[1..] && b == [b[0]] + b[1..];
    }
  }

  lemma {:induction false} LessEqTransitive(a: string, b: string, c: string)
    requires LessEq(a, b) && LessEq(b, c)
    ensures LessEq(a, c)
  {
    if a != [] && b != [] && c != [] && a[0] == b[0] && b[0] == c[0] {
      LessEqTransitive(a[1..], b[1..], c[1..]);
    }
  }

  lemma {:induction false} LessEqTotal(a: string, b: string)
    ensures LessEq(a, b) || LessEq(b, a)
  {
    if a != [] && b != [] && a[0] == b[0] {
      LessEqTotal(a[1..], b[1..]);
    }
  }

  /** A common prefix does not change the order. */
  lemma {:induction false} LessEqCommonPrefix(p: string, a: string, b: string)
    requires LessEq(a, b)
    ensures LessEq(p + a, p + b)
  {
    if p != [] {
      LessEqCommonPrefix(p[1..], a, b);
      assert (p + a)[1..] == p[1..] + a && (p + b)[1..] == p[1..] + b;
      assert (p + a)[0] == p[0] == (p + b)[0];
    } else {
      assert p + a == a && p + b == b;
    }
  }

  /** Every earlier element is at most every later one. */
  ghost predicate Sorted(s: seq<string>)
  {
    forall i, j {:trigger LessEq(s[i], s[j])} :: 0 <= i < j < |s| ==> LessEq(s[i], s[j])
  }

  /** Insert `x` into a sorted list before the first element it is at most. */
  function Insert(x: string, s: seq<string>): (r: seq<string>)
    requires Sorted(s)
    ensures Sorted(r)
    ensures multiset(r) == multiset(s) + multiset{x}
  {
    if s == [] then [x]
    else if LessEq(x, s[0]) then
      assert Sorted([x] + s) by {
        forall j | 0 <= j < |s|
          ensures LessEq(x, s[j])
        {
          if j > 0 {
            LessEqTransitive(x, s[0], s[j]);
          }
        }
        var r := [x] + s;
        forall i, j | 0 <= i < j < |r|
          ensures LessEq(r[i], r[j])
        {
          assert r[j] == s[j - 1];
        }
      }
      [x] + s
    else
      var tail := Insert(x, s[1..]);
      assert s == [s[0]] + s[1..];
      assert Sorted([s[0]] + tail) by {
        LessEqTotal(x, s[0]);
        forall j | 0 <= j < |tail|
          ensures LessEq(s[0], tail[j])
        {
          assert tail[j] in multiset(s[1..]) + multiset{x};
          if tail[j] != x {
            var k :| 0 <= k < |s[1..]| && s[1..][k] == tail[j];
            assert s[k + 1] == tail[j];
          }
        }
      }
      [s[0]] + tail
  }

  /** Python's `list.sort()` on a list of strings. */
  function Sort(s: seq<string>): (r: seq<string>)
    ensures Sorted(r)
    ensures multiset(r) == multiset(s)
    ensures |r| == |s|
  {
    if s == [] then []
    else
      assert s == [s[0]] + s[1..];
      Insert(s[0], Sort(s[1..]))
  }

  /** A sorted list is determined by its multiset of elements. */
  lemma {:induction false} SortedUnique(a: seq<string>, b: seq<string>)
    requires Sorted(a) && Sorted(b)
    requires multiset(a) == multiset(b)
    ensures a == b
  {
    if a != [] {
      assert |b| == |a| by {
        assert |multiset(a)| == |multiset(b)|;
      }
      SameMinimum(a, b);
      DropHead(a);
      DropHead(b);
      SortedUnique(a[1..], b[1..]);
      assert a == [a[0]] + a[1..] && b == [b[0]] + b[1..];
    }
  }

  /** Two sorted permutations of each other start with the same element. */
  lemma {:induction false} SameMinimum(a: seq<string>, b: seq<string>)
    requires Sorted(a) && Sorted(b) && a != [] && b != []
    requires multiset(a) == multiset(b)
    ensures a[0] == b[0]
  {
    assert a[0] in multiset(b) && b[0] in multiset(a);
    var i :| 0 <= i < |b| && b[i] == a[0];
    var k :| 0 <= k < |a| && a[k] == b[0];
    if i > 0 {
      assert LessEq(b[0], b[i]);
    } else {
      LessEqReflexive(b[0]);
    }
    if k > 0 {
      assert LessEq(a[0], a[k]);
    } else {
      LessEqReflexive(a[0]);
    }
    LessEqAntisymmetric(a[0], b[0]);
  }

  /** Dropping the head keeps a list sorted and removes one copy of the head. */
  lemma {:induction false} DropHead(a: seq<string>)
    requires Sorted(a) && a != []
    ensures Sorted(a[1..])
    ensures multiset(a[1..]) == multiset(a) - multiset{a[0]}
  {
    assert a == [a[0]] + a[1..];
    assert multiset(a) == multiset{a[0]} + multiset(a[1..]);
  }

  /** Any sorted permutation of `s` is the one Sort returns, so modelling
      Python's sort by Sort loses nothing. */
  lemma {:induction false} SortIsTheSortedPermutation(s: seq<string>, sorted: seq<string>)
    requires Sorted(sorted) && multiset(sorted) == multiset(s)
    ensures sorted == Sort(s)
  {
    SortedUnique(sorted, Sort(s));
  }
}
