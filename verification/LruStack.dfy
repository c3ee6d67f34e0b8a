// The abstract side of the cache simulator: least-recently-used replacement on a list of tags,
// and the unbounded stack of all tags seen so far that every such list is a prefix of.
module LruStack {

  datatype Outcome = Hit | Miss | MissEvict

  ghost predicate Distinct<T>(q: seq<T>) {
    forall i, j :: 0 <= i < j < |q| ==> q[i] != q[j]
  }

  function Take<T>(q: seq<T>, n: nat): seq<T> {
    if n <= |q| then q[..n] else q
  }

  function Without(q: seq<int>, t: int): seq<int> {
    if q == [] then [] else if q[0] == t then Without(q[1..], t) else [q[0]] + Without(q[1..], t)
  }

  // All tags of a history, most recently used first.
  function Recency(history: seq<int>): seq<int> {
    if history == [] then []
    else
      var last := |history| - 1;
      [history[last]] + Without(Recency(history[..last]), history[last])
  }

  // One access to a set of `capacity` lines held as a list, most recent tag first.
  function Touch(q: seq<int>, capacity: nat, t: int): seq<int>
    requires 1 <= capacity && |q| <= capacity
  {
    if t in q then [t] + Without(q, t)
    else if |q| < capacity then [t] + q
    else [t] + q[..|q| - 1]
  }

  function TouchOutcome(q: seq<int>, capacity: nat, t: int): Outcome {
    if t in q then Hit else if |q| < capacity then Miss else MissEvict
  }

  lemma {:induction false} WithoutContents(q: seq<int>, t: int)
    ensures |Without(q, t)| <= |q|
    ensures forall x :: x in Without(q, t) <==> x in q && x != t
    ensures Distinct(q) ==> Distinct(Without(q, t))
    ensures t !in q ==> Without(q, t) == q
  {
    if q != [] {
      var head, tail := q[0], q[1..];
      WithoutContents(tail, t);
      assert q == [head] + tail;
      if Distinct(q) {
        assert forall i :: 0 <= i < |tail| ==> tail[i] == q[i + 1];
        assert head !in tail;
        DistinctCons(head, Without(tail, t));
      }
    }
  }

  lemma DistinctCons<T>(x: T, q: seq<T>)
    requires Distinct(q) && x !in q
    ensures Distinct([x] + q)
  {
  }

  lemma {:induction false} WithoutAt(q: seq<int>, p: nat)
    requires Distinct(q) && p < |q|
    ensures Without(q, q[p]) == q[..p] + q[p + 1..]
  {
    if p == 0 {
      WithoutContents(q[1..], q[0]);
    } else {
      WithoutAt(q[1..], p - 1);
      assert q[..p] + q[p + 1..] == [q[0]] + (q[1..][..p - 1] + q[1..][p..]);
    }
  }

  lemma {:induction false} RecencyContents(history: seq<int>)
    ensures Distinct(Recency(history))
    ensures forall x :: x in Recency(history) <==> x in history
  {
    if history != [] {
      var last := |history| - 1;
      RecencyContents(history[..last]);
      WithoutContents(Recency(history[..last]), history[last]);
      assert history == history[..last] + [history[last]];
    }
  }

  // Cutting a list and removing one position commute, up to the place freed by the removal.
  lemma {:induction false} RemoveThenTake<T>(q: seq<T>, p: nat, n: nat)
    requires p < |q| && n >= 1
    ensures p >= n ==> Take(q[..p] + q[p + 1..], n - 1) == Take(q, n - 1)
    ensures p < n ==> p < |Take(q, n)| && Take(q, n)[p] == q[p]
    ensures p < n ==> Take(q[..p] + q[p + 1..], n - 1) == Take(q, n)[..p] + Take(q, n)[p + 1..]
  {
  }

  lemma TakeMembers(q: seq<int>, t: int, n: nat) returns (p: nat)
    requires Distinct(q) && t in q
    ensures p < |q| && q[p] == t && (t in Take(q, n) <==> p < n)
  {
    p :| p < |q| && q[p] == t;
    if p < n {
      assert Take(q, n)[p] == t;
    }
  }

  // The same for a tag.
  lemma {:induction false} WithoutTake(q: seq<int>, t: int, n: nat)
    requires Distinct(q) && n >= 1
    ensures t in Take(q, n) ==> Without(Take(q, n), t) == Take(Without(q, t), n - 1)
    ensures t !in Take(q, n) ==> Take(Without(q, t), n - 1) == Take(q, n - 1)
  {
    if t in q {
      var p := TakeMembers(q, t, n);
      WithoutAt(q, p);
      RemoveThenTake(q, p, n);
      if p < n {
        WithoutAt(Take(q, n), p);
      }
    } else {
      WithoutContents(q, t);
    }
  }

  // The list kept with n lines is always the n most recently used distinct tags.
  lemma {:induction false} TouchIsPrefixOfRecency(history: seq<int>, n: nat, t: int)
    requires n >= 1
    ensures Touch(Take(Recency(history), n), n, t) == Take(Recency(history + [t]), n)
  {
    var r := Recency(history);
    RecencyContents(history);
    RecencySnoc(history, t);
    TouchIsPrefix(r, n, t);
  }

  lemma {:induction false} RecencySnoc(history: seq<int>, t: int)
    ensures Recency(history + [t]) == [t] + Without(Recency(history), t)
  {
    assert (history + [t])[..|history|] == history;
  }

  lemma {:induction false} TouchIsPrefix(r: seq<int>, n: nat, t: int)
    requires n >= 1 && Distinct(r)
    ensures Touch(Take(r, n), n, t) == Take([t] + Without(r, t), n)
  {
    WithoutTake(r, t, n);
    assert Take([t] + Without(r, t), n) == [t] + Take(Without(r, t), n - 1);
    if t !in Take(r, n) {
      WithoutContents(r, t);
      if |r| >= n {
        assert r[..n][..n - 1] == r[..n - 1];
      }
    }
  }
}
