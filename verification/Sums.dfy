// Finite sums over sequences. Worker counts (tokens out, locks held, goroutines still running) and
// termination measures are all sums of a natural-valued weight over the sequence of workers.
module Sums {

  function Sum<T>(s: seq<T>, f: T -> nat): nat {
    if s == [] then 0 else f(s[0]) + Sum(s[1..], f)
  }

  /** The weight that counts every element. */
  function One<T>(x: T): nat { 1 }

  // Replacing one element exchanges its weight.
  lemma {:induction false} SumUpdate<T>(s: seq<T>, i: nat, x: T, f: T -> nat)
    requires i < |s|
    ensures Sum(s[i := x], f) + f(s[i]) == Sum(s, f) + f(x)
  {
    if i == 0 {
      assert s[i := x][1..] == s[1..];
    } else {
      assert s[i := x][1..] == s[1..][i - 1 := x];
      SumUpdate(s[1..], i - 1, x, f);
    }
  }

  // Two elements at different places both fit under the sum.
  lemma {:induction false} SumAtLeastTwo<T>(s: seq<T>, i: nat, j: nat, f: T -> nat)
    requires i < j < |s|
    ensures f(s[i]) + f(s[j]) <= Sum(s, f)
  {
    if i == 0 {
      SumAtLeast(s[1..], j - 1, f);
    } else {
      SumAtLeastTwo(s[1..], i - 1, j - 1, f);
    }
  }

  lemma {:induction false} SumAtLeast<T>(s: seq<T>, i: nat, f: T -> nat)
    requires i < |s|
    ensures f(s[i]) <= Sum(s, f)
  {
    if i > 0 {
      SumAtLeast(s[1..], i - 1, f);
    }
  }

  // A positive sum has a contributing element.
  lemma {:induction false} SumPositive<T>(s: seq<T>, f: T -> nat) returns (i: nat)
    requires Sum(s, f) > 0
    ensures i < |s| && f(s[i]) > 0
  {
    if f(s[0]) > 0 {
      i := 0;
    } else {
      var k := SumPositive(s[1..], f);
      i := k + 1;
    }
  }

  // Pointwise comparison of two weights, with the gap at one place.
  lemma {:induction false} SumDominated<T>(s: seq<T>, f: T -> nat, g: T -> nat)
    requires forall x <- s :: f(x) <= g(x)
    ensures Sum(s, f) <= Sum(s, g)
  {
    if s != [] {
      SumDominated(s[1..], f, g);
    }
  }

  lemma {:induction false} SumStrictlyDominated<T>(s: seq<T>, i: nat, f: T -> nat, g: T -> nat)
    requires forall x <- s :: f(x) <= g(x)
    requires i < |s| && f(s[i]) < g(s[i])
    ensures Sum(s, f) < Sum(s, g)
  {
    if i == 0 {
      SumDominated(s[1..], f, g);
    } else {
      SumStrictlyDominated(s[1..], i - 1, f, g);
    }
  }

  lemma {:induction false} SumConstant<T>(s: seq<T>, f: T -> nat, w: nat)
    requires forall x <- s :: f(x) == w
    ensures Sum(s, f) == |s| * w
  {
    if s != [] {
      SumConstant(s[1..], f, w);
    }
  }

  lemma {:induction false} SumConcat<T>(a: seq<T>, b: seq<T>, f: T -> nat)
    ensures Sum(a + b, f) == Sum(a, f) + Sum(b, f)
  {
    if a == [] {
      assert a + b == b;
    } else {
      assert (a + b)[1..] == a[1..] + b;
      SumConcat(a[1..], b, f);
    }
  }

  lemma {:induction false} SumSnoc<T>(s: seq<T>, x: T, f: T -> nat)
    ensures Sum(s + [x], f) == Sum(s, f) + f(x)
  {
    SumConcat(s, [x], f);
    assert [x][1..] == [];
  }
}
