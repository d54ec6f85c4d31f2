/**
 Replicating sequences. Repeat is Python's `xs * n` (whole copies one after
 the other); Stretch repeats each element `n` times in place, which is what
 sorting a repeated list produces. Zip is Python's `zip` of two sequences.
 */
module Replicate {

  /** Python's `xs * n`: `n` copies of `xs`, one after the other. */
  function Repeat<T>(xs: seq<T>, n: nat): seq<T>
  {
    if n == 0 then [] else xs + Repeat(xs, n - 1)
  }

  /** `xs * n` has `|xs| * n` elements. */
  lemma {:induction false} RepeatLength<T>(xs: seq<T>, n: nat)
    ensures |Repeat(xs, n)| == |xs| * n
  {
    if n > 0 {
      RepeatLength(xs, n - 1);
      MulPred(n, |xs|);
    }
  }

  /** `n` copies of `x`: Python's `[x] * n`. */
  function Copies<T>(x: T, n: nat): seq<T>
  {
    seq(n, _ => x)
  }

  /** Each element of `xs` repeated `n` times in place, in the order of `xs`. */
  function Stretch<T>(xs: seq<T>, n: nat): seq<T>
  {
    if xs == [] then [] else Copies(xs[0], n) + Stretch(xs[1..], n)
  }

  /** Stretch(xs, n) has `|xs| * n` elements. */
  lemma {:induction false} StretchLength<T>(xs: seq<T>, n: nat)
    ensures |Stretch(xs, n)| == |xs| * n
  {
    if xs != [] {
      StretchLength(xs[1..], n);
      MulPred(|xs|, n);
    }
  }

  /** Position `i` of `xs * n` holds element `i mod |xs|` of `xs`: the
      repeated list cycles with period `|xs|`. */
  lemma {:induction false} RepeatAt<T>(xs: seq<T>, n: nat, i: int)
    requires 0 <= i < |Repeat(xs, n)|
    ensures |xs| > 0 && 0 <= i % |xs| < |xs|
    ensures Repeat(xs, n)[i] == xs[i % |xs|]
  {
    RepeatLength(xs, n);
    var rest := Repeat(xs, n - 1);
    assert Repeat(xs, n) == xs + rest;
    if i < |xs| {
      SmallDivMod(i, |xs|);
    } else {
      ShiftDown(i, |xs|);
      RepeatAt(xs, n - 1, i - |xs|);
    }
  }

  /** Position `i` of Stretch(xs, n) holds element `i div n` of `xs`. */
  lemma {:induction false} StretchAt<T>(xs: seq<T>, n: nat, i: int)
    requires 0 <= i < |Stretch(xs, n)|
    ensures n > 0 && 0 <= i / n < |xs|
    ensures Stretch(xs, n)[i] == xs[i / n]
  {
    StretchLength(xs, n);
    var rest := Stretch(xs[1..], n);
    assert Stretch(xs, n) == Copies(xs[0], n) + rest;
    if i < n {
      SmallDivMod(i, n);
    } else {
      ShiftDown(i, n);
      StretchAt(xs[1..], n, i - n);
    }
  }

  /** Python's `zip` of two sequences: position-wise pairs, as many as the
      shorter sequence has elements. */
  function Zip<A, B>(as_: seq<A>, bs: seq<B>): seq<(A, B)>
  {
    var n := if |as_| <= |bs| then |as_| else |bs|;
    seq(n, i requires 0 <= i < n => (as_[i], bs[i]))
  }

  /** Division and remainder of an index below the divisor. */
  lemma {:induction false} SmallDivMod(i: int, k: int)
    requires 0 <= i < k
    ensures i / k == 0 && i % k == i
  {
  }

  /** Dividing `q * k + rem` by `k` gives back `q` and `rem`. */
  lemma {:induction false} DivModUnique(a: int, k: int, q: int, rem: int)
    requires k > 0 && 0 <= rem < k && a == q * k + rem
    ensures a / k == q && a % k == rem
  {
    var q', rem' := a / k, a % k;
    assert a == q' * k + rem';
    if q' < q {
      assert (q - q') * k >= k by { MulAtLeast(q - q', k); }
      assert false;
    } else if q < q' {
      assert (q' - q) * k >= k by { MulAtLeast(q' - q, k); }
      assert false;
    }
  }

  lemma {:induction false} MulPred(m: int, k: int)
    requires m >= 1
    ensures (m - 1) * k + k == m * k && k * (m - 1) + k == k * m
  {
  }

  lemma {:induction false} MulAtLeast(m: int, k: int)
    requires m >= 1 && k > 0
    ensures m * k >= k
  {
  }

  /** A product of counts is positive exactly when both counts are. */
  lemma {:induction false} PositiveProduct(m: nat, k: nat)
    ensures m * k > 0 <==> m > 0 && k > 0
  {
    if m > 0 && k > 0 {
      assert m * k >= k;
    }
  }

  /** Taking one divisor's worth off an index lowers its quotient by one and
      keeps its remainder. */
  lemma {:induction false} ShiftDown(i: int, k: int)
    requires k > 0 && i >= k
    ensures (i - k) / k == i / k - 1 && (i - k) % k == i % k
  {
    DivModUnique(i - k, k, i / k - 1, i % k);
  }

  /** Quotients by a positive divisor never decrease. */
  lemma {:induction false} DivMonotone(i: int, j: int, k: int)
    requires 0 <= i <= j && k > 0
    ensures i / k <= j / k
  {
    if j / k < i / k {
      assert (i / k - j / k) * k >= k by { MulAtLeast(i / k - j / k, k); }
      assert false;
    }
  }

  /** Every element occurs `n` times as often in `xs * n` as in `xs`. */
  lemma {:induction false} RepeatCount<T>(xs: seq<T>, n: nat, x: T)
    ensures multiset(Repeat(xs, n))[x] == n * multiset(xs)[x]
  {
    if n > 0 {
      RepeatCount(xs, n - 1, x);
      assert Repeat(xs, n) == xs + Repeat(xs, n - 1);
      MulPred(n, multiset(xs)[x]);
    }
  }

  /** Every element occurs `n` times as often in Stretch(xs, n) as in `xs`. */
  lemma {:induction false} StretchCount<T>(xs: seq<T>, n: nat, x: T)
    ensures multiset(Stretch(xs, n))[x] == n * multiset(xs)[x]
  {
    if xs != [] {
      StretchCount(xs[1..], n, x);
      assert Stretch(xs, n) == Copies(xs[0], n) + Stretch(xs[1..], n);
      CopiesCount(xs[0], n, x);
      assert xs == [xs[0]] + xs[1..];
      assert multiset(xs)[x] == (if x == xs[0] then 1 else 0) + multiset(xs[1..])[x];
      if x == xs[0] {
        MulPred(multiset(xs)[x], n);
      }
    }
  }

  lemma {:induction false} CopiesCount<T>(y: T, n: nat, x: T)
    ensures multiset(Copies(y, n))[x] == if x == y then n else 0
  {
    if n > 0 {
      CopiesCount(y, n - 1, x);
      assert Copies(y, n) == Copies(y, n - 1) + [y];
    }
  }

  /** Pairing one fixed `y` with every element of `bs`. */
  lemma {:induction false} CopiesZipCount<A, B>(y: A, bs: seq<B>, a: A, b: B)
    ensures multiset(Zip(Copies(y, |bs|), bs))[(a, b)] == if a == y then multiset(bs)[b] else 0
  {
    if bs != [] {
      var n := |bs| - 1;
      CopiesZipCount(y, bs[..n], a, b);
      assert Zip(Copies(y, |bs|), bs) == Zip(Copies(y, n), bs[..n]) + [(y, bs[n])];
      assert bs == bs[..n] + [bs[n]];
    }
  }

  /** Every element of `xs` paired with every element of `ys`, grouped by
      the element of `xs`: the nested loop `[(x, y) for x in xs for y in ys]`. */
  function Product<A, B>(xs: seq<A>, ys: seq<B>): seq<(A, B)>
  {
    if xs == [] then [] else Zip(Copies(xs[0], |ys|), ys) + Product(xs[1..], ys)
  }

  /** Zipping `xs` stretched by `|ys|` with `ys` repeated `|xs|` times runs
      the nested loop of Product. */
  lemma {:induction false} ZipStretchRepeat<A, B>(xs: seq<A>, ys: seq<B>)
    ensures Zip(Stretch(xs, |ys|), Repeat(ys, |xs|)) == Product(xs, ys)
  {
    if xs != [] {
      var head := Copies(xs[0], |ys|);
      var stretched := Stretch(xs[1..], |ys|);
      var repeated := Repeat(ys, |xs| - 1);
      ZipStretchRepeat(xs[1..], ys);
      StretchLength(xs[1..], |ys|);
      RepeatLength(ys, |xs| - 1);
      assert Stretch(xs, |ys|) == head + stretched;
      assert Repeat(ys, |xs|) == ys + repeated;
      ZipAppend(head, ys, stretched, repeated);
      assert Product(xs, ys) == Zip(head, ys) + Product(xs[1..], ys);
    }
  }

  /** The cross product holds each pair as often as the product of its
      components' occurrences. */
  lemma {:induction false} ProductCount<A, B>(xs: seq<A>, ys: seq<B>, a: A, b: B)
    ensures multiset(Product(xs, ys))[(a, b)] == multiset(xs)[a] * multiset(ys)[b]
  {
    if xs != [] {
      var tail := xs[1..];
      var row := Zip(Copies(xs[0], |ys|), ys);
      ProductCount(tail, ys, a, b);
      CopiesZipCount(xs[0], ys, a, b);
      assert Product(xs, ys) == row + Product(tail, ys);
      assert multiset(Product(xs, ys))[(a, b)] == multiset(row)[(a, b)] + multiset(Product(tail, ys))[(a, b)];
      assert xs == [xs[0]] + tail;
      var m := multiset(ys)[b];
      var c := multiset(tail)[a];
      assert multiset(xs)[a] == (if a == xs[0] then 1 else 0) + c;
      if a == xs[0] {
        MulPred(c + 1, m);
      }
    }
  }

  lemma {:induction false} ZipAppend<A, B>(a1: seq<A>, b1: seq<B>, a2: seq<A>, b2: seq<B>)
    requires |a1| == |b1| && |a2| == |b2|
    ensures Zip(a1 + a2, b1 + b2) == Zip(a1, b1) + Zip(a2, b2)
  {
  }

  /** Pairwise distinct elements. */
  ghost predicate Distinct<T>(xs: seq<T>)
  {
    forall i, j :: 0 <= i < j < |xs| ==> xs[i] != xs[j]
  }

  /** In a sequence without repetitions every element occurs once. */
  lemma {:induction false} DistinctCount<T>(xs: seq<T>, x: T)
    requires Distinct(xs)
    ensures multiset(xs)[x] == if x in xs then 1 else 0
  {
    if xs != [] {
      DistinctCount(xs[1..], x);
      assert xs == [xs[0]] + xs[1..];
      assert xs[0] !in xs[1..];
    }
  }
}
