/** Weighted sums over sequences, shared by the ledgers of the other modules. */
module Sums {

  function Sum<T(!new)>(s: seq<T>, w: T -> int): int {
    if |s| == 0 then 0 else Sum(s[..|s| - 1], w) + w(s[|s| - 1])
  }

  lemma SumAppend<T(!new)>(s: seq<T>, x: T, w: T -> int)
    ensures Sum(s + [x], w) == Sum(s, w) + w(x)
  {
    assert (s + [x])[..|s|] == s;
  }

  /** A prefix grown by one element. */
  lemma SumPrefix<T(!new)>(s: seq<T>, i: nat, w: T -> int)
    requires i < |s|
    ensures Sum(s[..i + 1], w) == Sum(s[..i], w) + w(s[i])
  {
    assert s[..i + 1][..i] == s[..i];
  }

  lemma {:induction false} SumUpdate<T(!new)>(s: seq<T>, i: nat, x: T, w: T -> int)
    requires i < |s|
    ensures Sum(s[i := x], w) == Sum(s, w) - w(s[i]) + w(x)
  {
    var n := |s| - 1;
    if i < n {
      SumUpdate(s[..n], i, x, w);
      assert s[i := x][..n] == s[..n][i := x];
    } else {
      assert s[i := x][..n] == s[..n];
    }
  }

  function Without<T>(s: seq<T>, i: nat): (r: seq<T>)
    requires i < |s|
    ensures |r| == |s| - 1
  {
    s[..i] + s[i + 1..]
  }

  lemma WithoutAppend<T>(s: seq<T>, x: T, i: nat)
    requires i < |s|
    ensures Without(s + [x], i) == Without(s, i) + [x]
  {
    assert (s + [x])[..i] == s[..i];
    assert (s + [x])[i + 1..] == s[i + 1..] + [x];
  }

  lemma WithoutLast<T>(s: seq<T>, x: T)
    ensures Without(s + [x], |s|) == s
  {
  }

  lemma {:induction false} SumWithout<T(!new)>(s: seq<T>, i: nat, w: T -> int)
    requires i < |s|
    ensures Sum(Without(s, i), w) == Sum(s, w) - w(s[i])
  {
    var n := |s| - 1;
    if i < n {
      SumWithout(s[..n], i, w);
      assert Without(s, i) == Without(s[..n], i) + [s[n]];
      SumAppend(Without(s[..n], i), s[n], w);
    } else {
      assert Without(s, i) == s[..n];
    }
  }

  ghost predicate NonNegative<T(!new)>(s: seq<T>, w: T -> int) {
    forall x :: x in s ==> w(x) >= 0
  }

  lemma {:induction false} SumNonNegative<T(!new)>(s: seq<T>, w: T -> int)
    requires NonNegative(s, w)
    ensures Sum(s, w) >= 0
  {
    if |s| > 0 {
      SumNonNegative(s[..|s| - 1], w);
    }
  }

  /** A single term of a sum of non-negative terms is at most the sum. */
  lemma TermAtMostSum<T(!new)>(s: seq<T>, i: nat, w: T -> int)
    requires i < |s| && NonNegative(s, w)
    ensures w(s[i]) <= Sum(s, w)
  {
    SumWithout(s, i, w);
    SumNonNegative(Without(s, i), w);
  }

  lemma {:induction false} SumZero<T(!new)>(s: seq<T>, w: T -> int)
    requires forall x :: x in s ==> w(x) == 0
    ensures Sum(s, w) == 0
  {
    if |s| > 0 {
      SumZero(s[..|s| - 1], w);
    }
  }

  lemma {:induction false} SumSame<T(!new)>(s: seq<T>, v: T -> int, w: T -> int)
    requires forall x :: x in s ==> v(x) == w(x)
    ensures Sum(s, v) == Sum(s, w)
  {
    if |s| > 0 {
      SumSame(s[..|s| - 1], v, w);
    }
  }

  lemma {:induction false} SumMinus<T(!new)>(s: seq<T>, u: T -> int, v: T -> int, w: T -> int)
    requires forall x :: x in s ==> u(x) - v(x) == w(x)
    ensures Sum(s, u) - Sum(s, v) == Sum(s, w)
  {
    if |s| > 0 {
      SumMinus(s[..|s| - 1], u, v, w);
    }
  }

  lemma SumOne<T(!new)>(a: T, w: T -> int)
    ensures Sum([a], w) == w(a)
  {
    assert [a] == [] + [a];
    SumAppend([], a, w);
  }

  lemma SumTwo<T(!new)>(a: T, b: T, w: T -> int)
    ensures Sum([a, b], w) == w(a) + w(b)
  {
    assert [a, b] == [a] + [b];
    SumOne(a, w);
    SumAppend([a], b, w);
  }

  lemma {:induction false} SumConcat<T(!new)>(a: seq<T>, b: seq<T>, w: T -> int)
    ensures Sum(a + b, w) == Sum(a, w) + Sum(b, w)
  {
    if |b| == 0 {
      assert a + b == a;
    } else {
      var n := |b| - 1;
      SumConcat(a, b[..n], w);
      assert (a + b)[..|a| + n] == a + b[..n];
    }
  }

  lemma SumCons<T(!new)>(x: T, s: seq<T>, w: T -> int)
    ensures Sum([x] + s, w) == w(x) + Sum(s, w)
  {
    SumOne(x, w);
    SumConcat([x], s, w);
  }
}
