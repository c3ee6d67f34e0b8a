// The K-best measurement scheme, over exact real numbers.
module Sampler {
  import opened Common

  // ---- what is kept: the front of the sorted samples ----

  // x put behind the last element that is not larger.
  function Insert(s: seq<real>, x: real): (r: seq<real>)
    ensures |r| == |s| + 1
  {
    var n := |s| - 1;
    if s == [] || s[n] <= x then s + [x] else Insert(s[..n], x) + [s[n]]
  }

  function Sorted(samples: seq<real>): (r: seq<real>)
    ensures |r| == |samples|
  {
    if samples == [] then [] else Insert(Sorted(samples[..|samples| - 1]), samples[|samples| - 1])
  }

  // The k smallest of the samples, or all of them.
  function Best(samples: seq<real>, k: nat): (r: seq<real>)
    ensures |r| == Min(k, |samples|)
  {
    Sorted(samples)[..Min(k, |samples|)]
  }

  ghost predicate Ascending(s: seq<real>) {
    forall i, j :: 0 <= i <= j < |s| ==> s[i] <= s[j]
  }

  lemma AscendingSnoc(s: seq<real>, y: real)
    requires Ascending(s) && (s != [] ==> s[|s| - 1] <= y)
    ensures Ascending(s + [y])
  {
  }

  lemma {:induction false} InsertAscends(s: seq<real>, x: real)
    requires Ascending(s)
    ensures Ascending(Insert(s, x))
    ensures Insert(s, x)[|s|] == if s != [] && x < s[|s| - 1] then s[|s| - 1] else x
  {
    var n := |s| - 1;
    if s != [] && x < s[n] {
      InsertAscends(s[..n], x);
      AscendingSnoc(Insert(s[..n], x), s[n]);
    } else {
      AscendingSnoc(s, x);
    }
  }

  lemma {:induction false} InsertKeepsAll(s: seq<real>, x: real)
    ensures multiset(Insert(s, x)) == multiset(s) + multiset{x}
  {
    var n := |s| - 1;
    if s != [] && x < s[n] {
      InsertKeepsAll(s[..n], x);
      assert s == s[..n] + [s[n]];
    }
  }

  lemma {:induction false} SortedAscends(samples: seq<real>)
    ensures Ascending(Sorted(samples))
  {
    if samples != [] {
      var n := |samples| - 1;
      SortedAscends(samples[..n]);
      InsertAscends(Sorted(samples[..n]), samples[n]);
    }
  }

  lemma {:induction false} SortedKeepsAll(samples: seq<real>)
    ensures multiset(Sorted(samples)) == multiset(samples)
  {
    if samples != [] {
      var n := |samples| - 1;
      SortedKeepsAll(samples[..n]);
      InsertKeepsAll(Sorted(samples[..n]), samples[n]);
      assert samples == samples[..n] + [samples[n]];
    }
  }

  // What Best means: in ascending order, part of the samples, and nothing left out is smaller.
  lemma BestAreSmallest(samples: seq<real>, k: nat)
    ensures Ascending(Best(samples, k)) && multiset(Best(samples, k)) <= multiset(samples)
    ensures forall x, y :: x in Best(samples, k) && y in multiset(samples) - multiset(Best(samples, k)) ==> x <= y
  {
    SortedAscends(samples);
    SortedKeepsAll(samples);
    AscendingSplit(Sorted(samples), Min(k, |samples|));
  }

  lemma AscendingSplit(all: seq<real>, m: nat)
    requires Ascending(all) && m <= |all|
    ensures multiset(all) == multiset(all[..m]) + multiset(all[m..])
    ensures forall x, y :: x in all[..m] && y in all[m..] ==> x <= y
  {
    assert all == all[..m] + all[m..];
  }

  // The smallest of the kept samples is the smallest of all.
  lemma FirstIsLeast(samples: seq<real>, k: nat)
    requires samples != [] && k > 0
    ensures Best(samples, k)[0] in samples && forall x :: x in samples ==> Best(samples, k)[0] <= x
  {
    SortedAscends(samples);
    SortedKeepsAll(samples);
    assert Sorted(samples)[0] in multiset(samples);
    forall x | x in samples ensures Sorted(samples)[0] <= x {
      assert x in multiset(Sorted(samples));
    }
  }

  // How the first k change when one more sample comes.
  lemma {:induction false} InsertFront(s: seq<real>, x: real, k: nat)
    requires Ascending(s) && 0 < k <= |s|
    ensures Insert(s, x)[..k] == if x < s[k - 1] then Insert(s[..k - 1], x) else s[..k]
  {
    var n := |s| - 1;
    if k == |s| {
      assert s[..k - 1] == s[..n];
    } else if x < s[n] {
      InsertFront(s[..n], x, k);
      assert s[..n][..k - 1] == s[..k - 1] && s[..n][..k] == s[..k];
    } else {
      assert s[k - 1] <= s[n];
    }
  }

  // Insertion below the elements from p on that are larger.
  lemma InsertBelow(s: seq<real>, x: real, p: nat)
    requires 0 < p <= |s| && x < s[p - 1] && Insert(s, x) == Insert(s[..p], x) + s[p..]
    ensures Insert(s, x) == Insert(s[..p - 1], x) + s[p - 1..]
  {
    var front := s[..p];
    assert front[..p - 1] == s[..p - 1] && front[p - 1] == s[p - 1];
    assert s[p - 1..] == [s[p - 1]] + s[p..];
  }

  lemma InsertHere(s: seq<real>, x: real, p: nat)
    requires p <= |s| && (p > 0 ==> s[p - 1] <= x) && Insert(s, x) == Insert(s[..p], x) + s[p..]
    ensures Insert(s, x) == s[..p] + [x] + s[p..]
  {
  }

  lemma BestOfOneMore(samples: seq<real>, x: real, k: nat)
    requires k > 0
    ensures var best := Best(samples, k);
      Best(samples + [x], k)
      == if |samples| < k then Insert(best, x) else if x < best[k - 1] then Insert(best[..k - 1], x) else best
  {
    var s := Sorted(samples);
    assert (samples + [x])[..|samples|] == samples;
    SortedAscends(samples);
    if |samples| < k {
      assert s[..|samples|] == s && Insert(s, x)[..|samples| + 1] == Insert(s, x);
    } else {
      InsertFront(s, x, k);
      assert s[..k][..k - 1] == s[..k - 1];
    }
  }

  ghost predicate EndsWithin(best: seq<real>, factor: real)
    requires best != []
  {
    factor * best[0] >= best[|best| - 1]
  }

  ghost predicate AllWithin(best: seq<real>, factor: real) {
    forall x, y :: x in best && y in best ==> x <= factor * y
  }

  // The K smallest of at least K samples lie within a factor 1 + epsilon, by the first and the last.
  ghost predicate Converged(samples: seq<real>, k: nat, epsilon: real)
    requires k > 0
  {
    |samples| >= k && EndsWithin(Best(samples, k), 1.0 + epsilon)
  }

  // What that is for: no one of the k best exceeds another by more than the factor.
  ghost predicate Close(samples: seq<real>, k: nat, epsilon: real) {
    |samples| >= k && AllWithin(Best(samples, k), 1.0 + epsilon)
  }

  lemma Scaled(factor: real, y: real, y': real)
    requires factor >= 0.0 && y <= y'
    ensures factor * y <= factor * y'
  {
  }

  lemma PairClose(best: seq<real>, factor: real, x: real, y: real)
    requires best != [] && Ascending(best) && factor >= 0.0 && factor * best[0] >= best[|best| - 1]
    requires x in best && y in best
    ensures x <= factor * y
  {
    var i :| 0 <= i < |best| && best[i] == x;
    var j :| 0 <= j < |best| && best[j] == y;
    assert best[i] <= best[|best| - 1] && best[0] <= best[j];
    Scaled(factor, best[0], y);
  }

  lemma EndsClose(best: seq<real>, factor: real)
    requires best != [] && forall x, y :: x in best && y in best ==> x <= factor * y
    ensures factor * best[0] >= best[|best| - 1]
  {
    assert best[0] in best && best[|best| - 1] in best;
  }

  // Comparing the first and the last of the k best compares them all.
  lemma ConvergedIff(samples: seq<real>, k: nat, epsilon: real)
    requires k > 0 && 1.0 + epsilon >= 0.0
    ensures Converged(samples, k, epsilon) <==> Close(samples, k, epsilon)
  {
    SortedAscends(samples);
    if |samples| >= k {
      BestClose(Best(samples, k), 1.0 + epsilon);
    }
  }

  lemma BestClose(best: seq<real>, factor: real)
    requires best != [] && Ascending(best) && factor >= 0.0
    ensures EndsWithin(best, factor) <==> AllWithin(best, factor)
  {
    if EndsWithin(best, factor) {
      forall x, y | x in best && y in best ensures x <= factor * y {
        PairClose(best, factor, x, y);
      }
    } else if AllWithin(best, factor) {
      EndsClose(best, factor);
    }
  }

  lemma ConvergedPrefixes(samples: seq<real>, n: nat, k: nat, epsilon: real)
    requires k > 0 && 1.0 + epsilon >= 0.0 && n <= |samples|
    ensures forall m :: 1 <= m <= n ==> (Converged(samples[..m], k, epsilon) <==> Close(samples[..m], k, epsilon))
  {
    forall m | 1 <= m <= n ensures Converged(samples[..m], k, epsilon) <==> Close(samples[..m], k, epsilon) {
      ConvergedIff(samples[..m], k, epsilon);
    }
  }

  class Sampler {
    const kbest: nat
    const maxsamples: int
    const epsilon: real
    var values: array<real>
    var samplecount: nat
    ghost var samples: seq<real>

    ghost predicate Valid()
      reads this, values
    {
      && 0 < kbest == values.Length && samplecount == |samples|
      && values[..Min(kbest, samplecount)] == Best(samples, kbest)
    }

    constructor (kbest: nat, maxsamples: int, epsilon: real)
      requires kbest > 0
      ensures Valid() && samples == [] && fresh(values)
      ensures this.kbest == kbest && this.maxsamples == maxsamples && this.epsilon == epsilon
    {
      this.kbest := kbest;
      this.maxsamples := maxsamples;
      this.epsilon := epsilon;
      values := new real[kbest](_ => 0.0);
      samplecount := 0;
      samples := [];
    }

    // init_sampler
    method Init()
      requires kbest > 0
      modifies this
      ensures Valid() && samples == [] && fresh(values)
    {
      values := new real[kbest](_ => 0.0);
      samplecount := 0;
      samples := [];
    }

    // The insertion loop of add_sample: the value at pos moves into place among those before it.
    method SiftDown(pos: nat)
      requires pos < values.Length
      modifies values
      ensures values[..pos + 1] == Insert(old(values[..pos]), old(values[pos]))
      ensures values[pos + 1..] == old(values[pos + 1..])
    {
      var p := pos;
      ghost var s, x := values[..pos], values[pos];
      assert s[..pos] == s;
      while p > 0 && values[p - 1] > values[p]
        invariant 0 <= p <= pos && values[p] == x
        invariant forall i :: 0 <= i < p ==> values[i] == s[i]
        invariant forall i :: p < i <= pos ==> values[i] == s[i - 1]
        invariant values[pos + 1..] == old(values[pos + 1..])
        invariant Insert(s, x) == Insert(s[..p], x) + s[p..]
      {
        InsertBelow(s, x, p);
        values[p - 1], values[p] := values[p], values[p - 1];
        p := p - 1;
      }
      InsertHere(s, x, p);
      assert values[..pos + 1] == s[..p] + [x] + s[p..];
    }

    // add_sample
    method AddSample(val: real)
      requires Valid()
      modifies this`samplecount, this`samples, values
      ensures Valid() && samples == old(samples) + [val]
    {
      BestOfOneMore(samples, val, kbest);
      ghost var best := Best(samples, kbest);
      var pos := 0;
      if samplecount < kbest {
        pos := samplecount;
        values[pos] := val;
      } else if val < values[kbest - 1] {
        pos := kbest - 1;
        values[pos] := val;
      }
      assert values[..pos] == best[..pos];
      samplecount := samplecount + 1;
      samples := samples + [val];
      SiftDown(pos);
    }

    // has_converged
    method HasConverged() returns (yes: bool)
      requires Valid()
      ensures yes <==> Converged(samples, kbest, epsilon)
      ensures 1.0 + epsilon >= 0.0 ==> (yes <==> Close(samples, kbest, epsilon))
    {
      if 1.0 + epsilon >= 0.0 {
        ConvergedIff(samples, kbest, epsilon);
      }
      yes := samplecount >= kbest && (1.0 + epsilon) * values[0] >= values[kbest - 1];
    }

    // One turn of the loop of fcyc: a sample, and whether to take another.
    method TakeSample(measurement: real) returns (more: bool)
      requires Valid()
      modifies this`samplecount, this`samples, values
      ensures Valid() && samples == old(samples) + [measurement]
      ensures more <==> !Converged(samples, kbest, epsilon) && samplecount < maxsamples
      ensures 1.0 + epsilon >= 0.0 ==> (more <==> !Close(samples, kbest, epsilon) && samplecount < maxsamples)
    {
      AddSample(measurement);
      var converged := HasConverged();
      more := !converged && samplecount < maxsamples;
    }

    // fcyc, with the measurements that successive runs of the function would give: it stops at the
    // first sample where the K best are close together, or after maxsamples, and returns the least so far.
    method Fcyc(measurements: seq<real>) returns (result: real)
      requires kbest > 0 && |measurements| >= 1 && |measurements| >= maxsamples
      modifies this
      ensures 1 <= samplecount <= (if maxsamples < 1 then 1 else maxsamples)
      ensures Converged(measurements[..samplecount], kbest, epsilon) || samplecount >= maxsamples
      ensures forall n :: 1 <= n < samplecount ==> !Converged(measurements[..n], kbest, epsilon)
      ensures 1.0 + epsilon >= 0.0 ==> Close(measurements[..samplecount], kbest, epsilon) || samplecount >= maxsamples
      ensures 1.0 + epsilon >= 0.0 ==> forall n :: 1 <= n < samplecount ==> !Close(measurements[..n], kbest, epsilon)
      ensures result in measurements[..samplecount] && forall x :: x in measurements[..samplecount] ==> result <= x
    {
      Init();
      ghost var n := 0;
      var more := true;
      while more
        invariant Valid() && fresh(values) && n == samplecount <= |measurements| && samples == measurements[..n]
        invariant n == 0 ==> more
        invariant 0 < n ==> (more <==> !Converged(samples, kbest, epsilon) && n < maxsamples)
        invariant forall m :: 1 <= m < n ==> !Converged(measurements[..m], kbest, epsilon)
        invariant n <= 1 || n <= maxsamples
        decreases (if maxsamples < 1 then 1 else maxsamples) - n, more
      {
        more := TakeSample(measurements[samplecount]);
        n := n + 1;
        assert measurements[..n] == samples;
      }
      if 1.0 + epsilon >= 0.0 {
        ConvergedPrefixes(measurements, n, kbest, epsilon);
      }
      FirstIsLeast(samples, kbest);
      result := values[0];
      assert result == Best(samples, kbest)[0];
    }
  }
}
