// Sums over the threads of a system, for invariants that count threads at program points.
module Counting {

  ghost function Total<T(!new)>(ts: seq<T>, f: T -> int): int {
    if ts == [] then 0 else f(ts[0]) + Total(ts[1..], f)
  }

  lemma {:induction false} TotalUpdate<T(!new)>(ts: seq<T>, i: nat, t: T, f: T -> int)
    requires i < |ts|
    ensures Total(ts[i := t], f) == Total(ts, f) - f(ts[i]) + f(t)
  {
    if i == 0 {
      assert ts[0 := t][1..] == ts[1..];
    } else {
      assert ts[i := t][1..] == ts[1..][i - 1 := t];
      TotalUpdate(ts[1..], i - 1, t, f);
    }
  }

  lemma {:induction false} TotalNonnegative<T(!new)>(ts: seq<T>, f: T -> int)
    requires forall t :: f(t) >= 0
    ensures Total(ts, f) >= 0
  {
    if ts != [] {
      TotalNonnegative(ts[1..], f);
    }
  }

  lemma {:induction false} TotalAtLeast<T(!new)>(ts: seq<T>, i: nat, f: T -> int)
    requires i < |ts| && forall t :: f(t) >= 0
    ensures Total(ts, f) >= f(ts[i])
  {
    if i == 0 {
      TotalNonnegative(ts[1..], f);
    } else {
      TotalAtLeast(ts[1..], i - 1, f);
    }
  }

  lemma {:induction false} TotalAtLeastTwo<T(!new)>(ts: seq<T>, i: nat, j: nat, f: T -> int)
    requires i < |ts| && j < |ts| && i != j && forall t :: f(t) >= 0
    ensures Total(ts, f) >= f(ts[i]) + f(ts[j])
  {
    if i == 0 {
      TotalAtLeast(ts[1..], j - 1, f);
    } else if j == 0 {
      TotalAtLeast(ts[1..], i - 1, f);
    } else {
      TotalAtLeastTwo(ts[1..], i - 1, j - 1, f);
    }
  }

  lemma {:induction false} TotalMonotone<T(!new)>(ts: seq<T>, f: T -> int, g: T -> int)
    requires forall t :: f(t) <= g(t)
    ensures Total(ts, f) <= Total(ts, g)
  {
    if ts != [] {
      TotalMonotone(ts[1..], f, g);
    }
  }

  lemma {:induction false} TotalSum<T(!new)>(ts: seq<T>, f: T -> int, g: T -> int, h: T -> int)
    requires forall t :: f(t) == g(t) + h(t)
    ensures Total(ts, f) == Total(ts, g) + Total(ts, h)
  {
    if ts != [] {
      TotalSum(ts[1..], f, g, h);
    }
  }

  lemma {:induction false} SomeCounted<T(!new)>(ts: seq<T>, f: T -> int) returns (i: nat)
    requires Total(ts, f) > 0
    ensures i < |ts| && f(ts[i]) > 0
  {
    if f(ts[0]) > 0 {
      i := 0;
    } else {
      i := SomeCounted(ts[1..], f);
      i := i + 1;
    }
  }

  lemma {:induction false} SomeLarger<T(!new)>(ts: seq<T>, f: T -> int, g: T -> int) returns (i: nat)
    requires Total(ts, f) > Total(ts, g)
    ensures i < |ts| && f(ts[i]) > g(ts[i])
  {
    if f(ts[0]) > g(ts[0]) {
      i := 0;
    } else {
      i := SomeLarger(ts[1..], f, g);
      i := i + 1;
    }
  }

  lemma {:induction false} TotalZero<T(!new)>(ts: seq<T>, f: T -> int)
    requires forall i :: 0 <= i < |ts| ==> f(ts[i]) == 0
    ensures Total(ts, f) == 0
  {
    if ts != [] {
      TotalZero(ts[1..], f);
    }
  }
}
