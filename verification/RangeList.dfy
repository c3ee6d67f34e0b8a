// The driver's linked list of payload extents.
module RangeList {

  datatype Extent = Extent(lo: int, hi: int)

  class Range {
    var lo: int
    var hi: int
    var next: Range?

    constructor (lo: int, hi: int, next: Range?)
      ensures this.lo == lo && this.hi == hi && this.next == next
    {
      this.lo := lo;
      this.hi := hi;
      this.next := next;
    }
  }

  // The overlap test of add_range: one end of [lo, hi] lies inside e.
  predicate Detected(lo: int, hi: int, e: Extent) {
    (e.lo <= lo <= e.hi) || (e.lo <= hi <= e.hi)
  }

  predicate Overlap(lo: int, hi: int, e: Extent) { lo <= e.hi && e.lo <= hi }

  // The test misses exactly the ranges that strictly contain an old one on both sides.
  lemma DetectedIff(lo: int, hi: int, e: Extent)
    requires lo <= hi && e.lo <= e.hi
    ensures Detected(lo, hi, e) <==> Overlap(lo, hi, e) && !(lo < e.lo && e.hi < hi)
  {
  }

  // Position of the first element that begins at lo, or the length.
  function FirstAt(es: seq<Extent>, lo: int): (i: nat)
    ensures i <= |es| && (i < |es| ==> es[i].lo == lo) && forall j :: 0 <= j < i ==> es[j].lo != lo
  {
    if es == [] then 0
    else
      var i := FirstAt(es[..|es| - 1], lo);
      if i == |es| - 1 && es[i].lo != lo then |es| else i
  }

  // The list without its first element that begins at lo.
  function WithoutFirst(es: seq<Extent>, lo: int): seq<Extent> {
    var i := FirstAt(es, lo);
    if i == |es| then es else es[..i] + es[i + 1..]
  }

  // Node number i of a chain, null past its end.
  ghost function At(nodes: seq<Range>, i: int): Range? { if 0 <= i < |nodes| then nodes[i] else null }

  ghost predicate Distinct(nodes: seq<Range>) {
    nodes == [] || (nodes[|nodes| - 1] !in nodes[..|nodes| - 1] && Distinct(nodes[..|nodes| - 1]))
  }

  lemma {:induction false} DistinctAt(nodes: seq<Range>, i: nat, j: nat)
    requires Distinct(nodes) && i < j < |nodes|
    ensures nodes[i] != nodes[j]
  {
    var older := nodes[..|nodes| - 1];
    if j == |older| {
      assert nodes[i] == older[i];
    } else {
      DistinctAt(older, i, j);
    }
  }

  lemma {:induction false} DistinctWithout(nodes: seq<Range>, i: nat)
    requires Distinct(nodes) && i < |nodes|
    ensures Distinct(nodes[..i] + nodes[i + 1..])
  {
    var rest, n := nodes[..i] + nodes[i + 1..], |nodes| - 1;
    if i == n {
      assert rest == nodes[..n];
    } else {
      DistinctWithout(nodes[..n], i);
      assert rest[..n - 1] == nodes[..n][..i] + nodes[..n][i + 1..];
    }
  }

  lemma {:induction false} DistinctCons(node: Range, nodes: seq<Range>)
    requires Distinct(nodes) && node !in nodes
    ensures Distinct([node] + nodes)
  {
    if nodes != [] {
      var n := |nodes| - 1;
      DistinctCons(node, nodes[..n]);
      assert ([node] + nodes)[..n + 1] == [node] + nodes[..n];
    }
  }

  class Ranges {
    var head: Range?
    ghost var nodes: seq<Range>
    ghost var extents: seq<Extent>

    ghost predicate Valid()
      reads this, nodes
    {
      && head == At(nodes, 0) && |extents| == |nodes|
      && (forall i {:trigger nodes[i].next} :: 0 <= i < |nodes| ==> nodes[i].next == At(nodes, i + 1))
      && (forall i {:trigger extents[i]} :: 0 <= i < |nodes| ==> extents[i] == Extent(nodes[i].lo, nodes[i].hi))
      && Distinct(nodes)
    }

    constructor ()
      ensures Valid() && nodes == [] && extents == []
    {
      head := null;
      nodes := [];
      extents := [];
    }

    // The search loop of add_range.
    method Overlaps(lo: int, hi: int) returns (found: bool)
      requires Valid()
      ensures found <==> exists e :: e in extents && Detected(lo, hi, e)
    {
      var p := head;
      ghost var i := 0;
      while p != null
        invariant 0 <= i <= |nodes| && p == At(nodes, i)
        invariant forall j :: 0 <= j < i ==> !Detected(lo, hi, extents[j])
        decreases |nodes| - i
      {
        assert extents[i] == Extent(p.lo, p.hi);
        if (lo >= p.lo && lo <= p.hi) || (hi >= p.lo && hi <= p.hi) {
          assert extents[i] in extents;
          return true;
        }
        p, i := p.next, i + 1;
      }
      return false;
    }

    // A new first node.
    method Prepend(lo: int, hi: int)
      requires Valid()
      modifies this
      ensures Valid() && nodes != [] && fresh(nodes[0]) && nodes[1..] == old(nodes)
      ensures extents == [Extent(lo, hi)] + old(extents)
    {
      ghost var older, before := nodes, extents;
      head := new Range(lo, hi, head);
      nodes := [head] + older;
      extents := [Extent(lo, hi)] + before;
      forall k | 1 <= k < |nodes|
        ensures nodes[k].next == At(nodes, k + 1) && extents[k] == Extent(nodes[k].lo, nodes[k].hi)
      {
        assert nodes[k] == older[k - 1] && extents[k] == before[k - 1];
      }
      DistinctCons(head, older);
    }

    // add_range, for a heap that extends from heapLo to heapHi.
    method Add(lo: int, size: int, heapLo: int, heapHi: int) returns (ok: bool)
      requires Valid() && size > 0
      modifies this
      ensures Valid() && forall k :: 0 <= k < |nodes| ==> nodes[k] in old(nodes) || fresh(nodes[k])
      ensures ok <==>
        && lo % 8 == 0
        && heapLo <= lo <= heapHi && heapLo <= lo + size - 1 <= heapHi
        && forall e :: e in old(extents) ==> !Detected(lo, lo + size - 1, e)
      ensures extents == if ok then [Extent(lo, lo + size - 1)] + old(extents) else old(extents)
    {
      var hi := lo + size - 1;
      if lo % 8 != 0 {
        return false;
      }
      if lo < heapLo || lo > heapHi || hi < heapLo || hi > heapHi {
        return false;
      }
      var found := Overlaps(lo, hi);
      if found {
        return false;
      }
      Prepend(lo, hi);
      return true;
    }

    // The search loop of remove_range: the first node that begins at lo, and the node before it.
    method Find(lo: int) returns (p: Range?, prev: Range?, ghost i: nat)
      requires Valid()
      ensures i <= |nodes| && p == At(nodes, i) && prev == At(nodes, i - 1)
      ensures forall j :: 0 <= j < i ==> extents[j].lo != lo
      ensures i < |nodes| ==> extents[i].lo == lo
    {
      p, prev, i := head, null, 0;
      while p != null
        invariant 0 <= i <= |nodes| && p == At(nodes, i) && prev == At(nodes, i - 1)
        invariant forall j :: 0 <= j < i ==> extents[j].lo != lo
        decreases |nodes| - i
      {
        assert extents[i] == Extent(p.lo, p.hi);
        if p.lo == lo {
          break;
        }
        prev := p;
        p, i := p.next, i + 1;
      }
    }

    // *prevpp = p->next
    method Unlink(p: Range, prev: Range?, ghost i: nat)
      requires Valid() && i < |nodes| && p == nodes[i] && prev == At(nodes, i - 1)
      modifies this, nodes`next
      ensures Valid() && nodes == old(nodes[..i] + nodes[i + 1..]) && extents == old(extents[..i] + extents[i + 1..])
    {
      ghost var older, before := nodes, extents;
      assert p.next == At(older, i + 1);
      DistinctWithout(older, i);
      forall k | 0 <= k < |older| && k != i - 1 ensures older[k] != prev {
        if prev != null {
          DistinctAt(older, if k < i - 1 then k else i - 1, if k < i - 1 then i - 1 else k);
        }
      }
      if prev == null {
        head := p.next;
      } else {
        prev.next := p.next;
      }
      nodes := older[..i] + older[i + 1..];
      extents := before[..i] + before[i + 1..];
      forall k | 0 <= k < |nodes|
        ensures nodes[k].next == At(nodes, k + 1) && extents[k] == Extent(nodes[k].lo, nodes[k].hi)
      {
        if k < i {
          assert nodes[k] == older[k] && extents[k] == before[k];
          assert At(nodes, k + 1) == if k + 1 < i then older[k + 1] else At(older, k + 2);
        } else {
          assert nodes[k] == older[k + 1] && extents[k] == before[k + 1];
          assert At(nodes, k + 1) == At(older, k + 2);
        }
      }
    }

    // remove_range
    method Remove(lo: int)
      requires Valid()
      modifies this, nodes
      ensures Valid() && forall k :: 0 <= k < |nodes| ==> nodes[k] in old(nodes)
      ensures extents == WithoutFirst(old(extents), lo)
    {
      var p, prev, i := Find(lo);
      assert FirstAt(extents, lo) == i;
      if p != null {
        Unlink(p, prev, i);
      }
    }

    // clear_ranges
    method Clear()
      requires Valid()
      modifies this
      ensures Valid() && nodes == [] && extents == []
    {
      var p := head;
      ghost var i := 0;
      while p != null
        invariant 0 <= i <= |nodes| && p == At(nodes, i)
        decreases |nodes| - i
      {
        p, i := p.next, i + 1;
      }
      head := null;
      nodes := [];
      extents := [];
    }
  }

  // A list that accepts a range around one it has.
  method AcceptsOverlap() returns (r: Ranges, ok: bool)
    ensures ok && r.Valid() && r.extents == [Extent(8, 31), Extent(16, 23)]
    ensures Overlap(r.extents[0].lo, r.extents[0].hi, r.extents[1])
  {
    r := new Ranges();
    ok := r.Add(16, 8, 0, 63);
    ok := r.Add(8, 24, 0, 63);
  }
}
