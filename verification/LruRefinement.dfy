// The age counters of the simulator implement least-recently-used replacement exactly,
// and more lines per set never cost more misses.
module LruRefinement {
  import opened LruStack
  import opened CacheSim

  // order lists the indices of the valid lines by increasing age.
  ghost predicate Ordered(lines: seq<CacheLine>, order: seq<nat>) {
    && |order| <= |lines|
    && (forall i :: 0 <= i < |lines| ==> (lines[i].valid <==> i < |order|))
    && (forall i :: 0 <= i < |lines| ==> lines[i].times >= 0)
    && (forall a :: 0 <= a < |order| ==> order[a] < |order|)
    && (forall a, c :: 0 <= a < c < |order| ==> lines[order[a]].times < lines[order[c]].times)
    && (forall i :: 0 <= i < |order| ==> i in order)
    && (forall i, j :: 0 <= i < j < |order| ==> lines[i].tag != lines[j].tag)
  }

  function TagsOf(lines: seq<CacheLine>, order: seq<nat>): seq<int>
    requires forall a :: 0 <= a < |order| ==> order[a] < |lines|
  {
    seq(|order|, a requires 0 <= a < |order| => lines[order[a]].tag)
  }

  // The valid lines are a prefix with distinct tags and ages, and q lists their tags youngest first.
  ghost predicate Represents(lines: seq<CacheLine>, q: seq<int>) {
    exists order :: Ordered(lines, order) && q == TagsOf(lines, order)
  }

  lemma OrderedAfterAging(lines: seq<CacheLine>, order: seq<nat>)
    requires Ordered(lines, order)
    ensures Ordered(Aged(lines), order) && TagsOf(Aged(lines), order) == TagsOf(lines, order)
    ensures forall a :: 0 <= a < |order| ==> Aged(lines)[order[a]].times >= 1
  {
  }

  lemma TagsDistinct(lines: seq<CacheLine>, order: seq<nat>)
    requires Ordered(lines, order)
    ensures Distinct(TagsOf(lines, order))
    ensures Distinct(order)
  {
    forall a, c | 0 <= a < c < |order|
      ensures order[a] != order[c] && TagsOf(lines, order)[a] != TagsOf(lines, order)[c]
    {
      assert lines[order[a]].times < lines[order[c]].times;
      var i, j := order[a], order[c];
      assert lines[i].tag != lines[j].tag by {
        if i < j { } else { assert j < i; }
      }
    }
  }

  // Giving age 0 to the line at position p of the order, under a tag no other valid line has,
  // moves it to the front.
  lemma MoveToFront(lines: seq<CacheLine>, order: seq<nat>, p: nat, tag: int)
    requires Ordered(lines, order) && p < |order|
    requires forall a :: 0 <= a < |order| ==> lines[order[a]].times >= 1
    requires forall i :: 0 <= i < |order| && i != order[p] ==> lines[i].tag != tag
    ensures var lines' := lines[order[p] := CacheLine(true, tag, 0)];
            var order' := [order[p]] + (order[..p] + order[p + 1..]);
            Ordered(lines', order') &&
            TagsOf(lines', order') == [tag] + (TagsOf(lines, order)[..p] + TagsOf(lines, order)[p + 1..])
  {
    TagsDistinct(lines, order);
    var rest := order[..p] + order[p + 1..];
    RestOfOrder(order, p);
    FrontLine(lines, order[p], rest, tag, |order|);
    var tags := TagsOf(lines, order);
    assert TagsOf(lines, rest) == tags[..p] + tags[p + 1..];
  }

  lemma RestOfOrder(order: seq<nat>, p: nat)
    requires p < |order| && Distinct(order)
    ensures var rest := order[..p] + order[p + 1..];
            && (forall a :: 0 <= a < |rest| ==> rest[a] == order[if a < p then a else a + 1])
            && (forall a :: 0 <= a < |rest| ==> rest[a] != order[p])
            && (forall j :: j in order && j != order[p] ==> j in rest)
  {
    var rest := order[..p] + order[p + 1..];
    assert order == order[..p] + [order[p]] + order[p + 1..];
  }

  // A line given age 0 comes before the others, which are listed in rest.
  lemma FrontLine(lines: seq<CacheLine>, i: nat, rest: seq<nat>, tag: int, n: nat)
    requires |rest| + 1 == n <= |lines| && i < n
    requires forall j :: 0 <= j < |lines| && j != i ==> (lines[j].valid <==> j < n)
    requires forall j :: 0 <= j < |lines| ==> lines[j].times >= 0
    requires forall a :: 0 <= a < |rest| ==> rest[a] < n && rest[a] != i && lines[rest[a]].times >= 1
    requires forall a, c :: 0 <= a < c < |rest| ==> lines[rest[a]].times < lines[rest[c]].times
    requires forall j :: 0 <= j < n && j != i ==> j in rest
    requires forall j :: 0 <= j < n && j != i ==> lines[j].tag != tag
    requires forall j, k :: 0 <= j < k < n && j != i && k != i ==> lines[j].tag != lines[k].tag
    ensures var lines' := lines[i := CacheLine(true, tag, 0)];
            Ordered(lines', [i] + rest) && TagsOf(lines', [i] + rest) == [tag] + TagsOf(lines, rest)
  {
    var lines', order := lines[i := CacheLine(true, tag, 0)], [i] + rest;
    assert forall a :: 1 <= a < |order| ==> order[a] == rest[a - 1];
    assert forall a :: 1 <= a < |order| ==> lines'[order[a]] == lines[rest[a - 1]];
    forall j | 0 <= j < |order| ensures j in order {
      if j != i {
        assert j in rest;
      }
    }
  }

  // A tag is held by a valid line exactly when the list contains it.
  lemma FindTagInOrder(lines: seq<CacheLine>, order: seq<nat>, tag: int) returns (p: nat)
    requires Ordered(lines, order)
    ensures FindTag(lines, tag) < |lines| <==> tag in TagsOf(lines, order)
    ensures FindTag(lines, tag) < |lines| ==>
      p < |order| && order[p] == FindTag(lines, tag) && TagsOf(lines, order)[p] == tag
  {
    var i := FindTag(lines, tag);
    p := 0;
    if i < |lines| {
      assert i in order;
      p :| 0 <= p < |order| && order[p] == i;
      assert TagsOf(lines, order)[p] == tag;
    }
  }

  // One access refines one step of the list.
  lemma ProcessRefinesTouch(lines: seq<CacheLine>, q: seq<int>, tag: int)
    requires Represents(lines, q) && |lines| >= 1
    ensures |q| <= |lines|
    ensures Represents(ProcessLines(lines, tag).0, Touch(q, |lines|, tag))
    ensures ProcessLines(lines, tag).1 == TouchOutcome(q, |lines|, tag)
  {
    var order :| Ordered(lines, order) && q == TagsOf(lines, order);
    OrderedAfterAging(lines, order);
    PlaceRefinesTouch(Aged(lines), order, tag);
  }

  lemma PlaceRefinesTouch(aged: seq<CacheLine>, order: seq<nat>, tag: int)
    requires Ordered(aged, order) && |aged| >= 1
    requires forall a :: 0 <= a < |order| ==> aged[order[a]].times >= 1
    ensures var q := TagsOf(aged, order);
      && |q| <= |aged|
      && Represents(Place(aged, tag).0, Touch(q, |aged|, tag))
      && Place(aged, tag).1 == TouchOutcome(q, |aged|, tag)
  {
    var p := FindTagInOrder(aged, order, tag);
    if FindTag(aged, tag) < |aged| {
      RefreshHit(aged, order, p, tag);
    } else if FindFree(aged) < |aged| {
      InsertFree(aged, order, tag);
    } else {
      ReplaceOldest(aged, order, tag);
    }
  }

  lemma RefreshHit(lines: seq<CacheLine>, order: seq<nat>, p: nat, tag: int)
    requires Ordered(lines, order) && p < |order|
    requires forall a :: 0 <= a < |order| ==> lines[order[a]].times >= 1
    requires order[p] == FindTag(lines, tag) < |lines|
    ensures var hit := FindTag(lines, tag);
            Represents(lines[hit := lines[hit].(times := 0)], [tag] + Without(TagsOf(lines, order), tag))
  {
    TagsDistinct(lines, order);
    MoveToFront(lines, order, p, tag);
    WithoutAt(TagsOf(lines, order), p);
  }

  lemma ReplaceOldest(lines: seq<CacheLine>, order: seq<nat>, tag: int)
    requires Ordered(lines, order) && FindTag(lines, tag) == FindFree(lines) == |lines| >= 1
    requires forall a :: 0 <= a < |order| ==> lines[order[a]].times >= 1
    ensures var victim, q := Oldest(lines, |lines|), TagsOf(lines, order);
            |q| == |lines| &&
            Represents(lines[victim := lines[victim].(tag := tag, times := 0)], [tag] + q[..|q| - 1])
  {
    assert lines[|lines| - 1].valid;
    OldestIsLast(lines, order);
    forall i | 0 <= i < |order| ensures lines[i].tag != tag {
      assert !Matches(lines[i], tag);
    }
    MoveToFront(lines, order, |order| - 1, tag);
    var q := TagsOf(lines, order);
    assert q[..|q| - 1] + q[|q|..] == q[..|q| - 1];
  }

  lemma InsertFree(lines: seq<CacheLine>, order: seq<nat>, tag: int)
    requires Ordered(lines, order) && FindFree(lines) < |lines|
    requires forall a :: 0 <= a < |order| ==> lines[order[a]].times >= 1
    requires FindTag(lines, tag) == |lines|
    ensures var free := FindFree(lines);
            Represents(lines[free := CacheLine(true, tag, 0)], [tag] + TagsOf(lines, order))
  {
    var free := FindFree(lines);
    assert free == |order| by {
      assert |order| < |lines| ==> !lines[|order|].valid;
    }
    forall i | 0 <= i < |order| ensures lines[i].tag != tag {
      assert !Matches(lines[i], tag);
    }
    FrontLine(lines, free, order, tag, |order| + 1);
  }

  lemma OldestIsLast(lines: seq<CacheLine>, order: seq<nat>)
    requires Ordered(lines, order) && |order| == |lines| >= 1
    ensures Oldest(lines, |lines|) == order[|order| - 1]
  {
    var p, last := Oldest(lines, |lines|), order[|order| - 1];
    assert p in order;
    var a :| 0 <= a < |order| && order[a] == p;
    assert lines[last].times <= lines[p].times;
  }

  // The tags that a list of accesses sends to set k, in order.
  function History(g: Geometry, addresses: seq<int>, k: nat): seq<int> {
    if addresses == [] then []
    else
      var a := addresses[|addresses| - 1];
      var front := History(g, addresses[..|addresses| - 1], k);
      if SetIndex(g, a) == k then front + [TagBits(g, a)] else front
  }

  // A simulator whose sets are plain lists, most recent tag first.
  datatype ListSim = ListSim(sets: seq<seq<int>>, hits: int, misses: int, evictions: int)

  ghost predicate ListShape(l: ListSim, g: Geometry) {
    |l.sets| == PowerOfTwo(g.s) && forall k :: 0 <= k < |l.sets| ==> |l.sets[k]| <= g.E
  }

  lemma {:induction false} TouchLength(q: seq<int>, capacity: nat, t: int)
    requires 1 <= capacity && |q| <= capacity
    ensures |Touch(q, capacity, t)| == |q| + (if TouchOutcome(q, capacity, t) == Miss then 1 else 0)
      || !Distinct(q)
    ensures |Touch(q, capacity, t)| <= capacity
  {
    if t in q {
      ShorterWithout(q, t);
      if Distinct(q) {
        var p :| 0 <= p < |q| && q[p] == t;
        WithoutAt(q, p);
      }
    }
  }

  lemma {:induction false} ShorterWithout(q: seq<int>, t: int)
    requires t in q
    ensures |Without(q, t)| < |q|
  {
    if q[0] == t {
      WithoutContents(q[1..], t);
    } else {
      assert q == [q[0]] + q[1..];
      ShorterWithout(q[1..], t);
    }
  }

  ghost function ListAccess(l: ListSim, g: Geometry, address: int): (r: ListSim)
    requires g.Ok() && ListShape(l, g)
    ensures ListShape(r, g)
  {
    var k, tag := SetIndex(g, address), TagBits(g, address);
    TouchLength(l.sets[k], g.E, tag);
    var sets := l.sets[k := Touch(l.sets[k], g.E, tag)];
    match TouchOutcome(l.sets[k], g.E, tag)
    case Hit => ListSim(sets, l.hits + 1, l.misses, l.evictions)
    case Miss => ListSim(sets, l.hits, l.misses + 1, l.evictions)
    case MissEvict => ListSim(sets, l.hits, l.misses + 1, l.evictions + 1)
  }

  ghost function RunLists(g: Geometry, addresses: seq<int>): (l: ListSim)
    requires g.Ok()
    ensures ListShape(l, g)
  {
    if addresses == [] then ListSim(seq(PowerOfTwo(g.s), _ => []), 0, 0, 0)
    else ListAccess(RunLists(g, addresses[..|addresses| - 1]), g, addresses[|addresses| - 1])
  }

  ghost predicate AllRepresent(sets: seq<seq<CacheLine>>, lists: seq<seq<int>>) {
    |sets| == |lists| && forall k :: 0 <= k < |sets| ==> Represents(sets[k], lists[k])
  }

  lemma OneSetChanges(sets: seq<seq<CacheLine>>, lists: seq<seq<int>>, k: nat, lines: seq<CacheLine>, q: seq<int>)
    requires AllRepresent(sets, lists) && k < |sets| && Represents(lines, q)
    ensures AllRepresent(sets[k := lines], lists[k := q])
  {
  }

  ghost predicate Refines(st: Sim, l: ListSim) {
    && AllRepresent(st.sets, l.sets)
    && st.hits == l.hits && st.misses == l.misses && st.evictions == l.evictions
  }

  lemma AccessRefinesListAccess(st: Sim, l: ListSim, g: Geometry, address: int)
    requires g.Ok() && st.Shape(g) && ListShape(l, g) && Refines(st, l)
    ensures Refines(Access(st, g, address), ListAccess(l, g, address))
  {
    var k, tag := SetIndex(g, address), TagBits(g, address);
    ProcessRefinesTouch(st.sets[k], l.sets[k], tag);
    OneSetChanges(st.sets, l.sets, k, ProcessLines(st.sets[k], tag).0, Touch(l.sets[k], g.E, tag));
  }

  // Every run of the simulator is a run of the list-based cache with the same three counters.
  lemma {:induction false} RunRefinesLists(g: Geometry, addresses: seq<int>)
    requires g.Ok()
    ensures Refines(Run(g, addresses), RunLists(g, addresses))
  {
    if addresses == [] {
      forall k | 0 <= k < PowerOfTwo(g.s) ensures Represents(InitialSim(g).sets[k], []) {
        assert Ordered(InitialSim(g).sets[k], []);
        assert TagsOf(InitialSim(g).sets[k], []) == [];
      }
    } else {
      var front, a := addresses[..|addresses| - 1], addresses[|addresses| - 1];
      RunRefinesLists(g, front);
      AccessRefinesListAccess(Run(g, front), RunLists(g, front), g, a);
    }
  }

  // The list of every set is the E most recently used distinct tags that reached the set.
  lemma {:induction false} ListsAreMostRecent(g: Geometry, addresses: seq<int>, k: nat)
    requires g.Ok() && k < PowerOfTwo(g.s)
    ensures RunLists(g, addresses).sets[k] == Take(Recency(History(g, addresses, k)), g.E)
  {
    if addresses == [] {
      assert Take(Recency([]), g.E) == [];
    } else {
      var front, a := addresses[..|addresses| - 1], addresses[|addresses| - 1];
      ListsAreMostRecent(g, front, k);
      TouchIsPrefixOfRecency(History(g, front, k), g.E, TagBits(g, a));
    }
  }

  // Main refinement result about the program's own state.
  lemma LinesAreMostRecentTags(g: Geometry, addresses: seq<int>, k: nat)
    requires g.Ok() && k < PowerOfTwo(g.s)
    ensures Represents(Run(g, addresses).sets[k], Take(Recency(History(g, addresses, k)), g.E))
  {
    RunRefinesLists(g, addresses);
    ListsAreMostRecent(g, addresses, k);
  }

  function ValidLines(lines: seq<CacheLine>): nat {
    if lines == [] then 0 else (if lines[0].valid then 1 else 0) + ValidLines(lines[1..])
  }

  function TotalValid(sets: seq<seq<CacheLine>>): nat {
    if sets == [] then 0 else ValidLines(sets[0]) + TotalValid(sets[1..])
  }

  lemma {:induction false} ValidPrefixCount(lines: seq<CacheLine>, n: nat)
    requires n <= |lines| && forall i :: 0 <= i < |lines| ==> (lines[i].valid <==> i < n)
    ensures ValidLines(lines) == n
  {
    if lines != [] {
      ValidPrefixCount(lines[1..], if n == 0 then 0 else n - 1);
    }
  }

  lemma {:induction false} TotalValidUpdate(sets: seq<seq<CacheLine>>, k: nat, lines: seq<CacheLine>)
    requires k < |sets|
    ensures TotalValid(sets[k := lines]) == TotalValid(sets) - ValidLines(sets[k]) + ValidLines(lines)
  {
    if k == 0 {
      assert sets[0 := lines][1..] == sets[1..];
    } else {
      TotalValidUpdate(sets[1..], k - 1, lines);
      assert sets[k := lines][1..] == sets[1..][k - 1 := lines];
    }
  }

  lemma RepresentsCount(lines: seq<CacheLine>, q: seq<int>)
    requires Represents(lines, q)
    ensures ValidLines(lines) == |q| && Distinct(q)
  {
    var order :| Ordered(lines, order) && q == TagsOf(lines, order);
    ValidPrefixCount(lines, |order|);
    TagsDistinct(lines, order);
  }

  // Every access is a hit or a miss, and a miss that evicts nothing fills one more line.
  lemma {:induction false} CounterLaws(g: Geometry, addresses: seq<int>)
    requires g.Ok()
    ensures var st := Run(g, addresses);
            st.hits + st.misses == |addresses| && st.misses - st.evictions == TotalValid(st.sets)
  {
    if addresses == [] {
      NothingValid(InitialSim(g).sets);
    } else {
      var front, a := addresses[..|addresses| - 1], addresses[|addresses| - 1];
      CounterLaws(g, front);
      RunRefinesLists(g, front);
      var st, k, tag := Run(g, front), SetIndex(g, a), TagBits(g, a);
      var q := RunLists(g, front).sets[k];
      ProcessRefinesTouch(st.sets[k], q, tag);
      RepresentsCount(st.sets[k], q);
      var lines := ProcessLines(st.sets[k], tag).0;
      RepresentsCount(lines, Touch(q, g.E, tag));
      TouchLength(q, g.E, tag);
      TotalValidUpdate(st.sets, k, lines);
    }
  }

  lemma {:induction false} NothingValid(sets: seq<seq<CacheLine>>)
    requires forall k :: 0 <= k < |sets| ==> forall i :: 0 <= i < |sets[k]| ==> !sets[k][i].valid
    ensures TotalValid(sets) == 0
  {
    if sets != [] {
      ValidPrefixCount(sets[0], 0);
      NothingValid(sets[1..]);
    }
  }

  // The second access of an M operation always hits, from any state whatever.
  lemma SecondProbeHits(st: Sim, g: Geometry, address: int)
    requires g.Ok() && st.Shape(g)
    ensures var once := Access(st, g, address); var twice := Access(once, g, address);
            twice.hits == once.hits + 1 && twice.misses == once.misses && twice.evictions == once.evictions
  {
    var k, tag := SetIndex(g, address), TagBits(g, address);
    var lines := ProcessLines(st.sets[k], tag).0;
    assert exists i :: 0 <= i < |lines| && Matches(lines[i], tag) by {
      var aged := Aged(st.sets[k]);
      if FindTag(aged, tag) < |aged| {
        assert Matches(lines[FindTag(aged, tag)], tag);
      } else if FindFree(aged) < |aged| {
        assert Matches(lines[FindFree(aged)], tag);
      } else {
        assert Matches(lines[Oldest(aged, |aged|)], tag);
      }
    }
    var i :| 0 <= i < |lines| && Matches(lines[i], tag);
    assert Matches(Aged(lines)[i], tag);
  }

  ghost predicate Holds(lines: seq<CacheLine>, tag: int) {
    exists i :: 0 <= i < |lines| && Matches(lines[i], tag)
  }

  lemma HoldsIffListed(lines: seq<CacheLine>, q: seq<int>, tag: int)
    requires Represents(lines, q)
    ensures Holds(lines, tag) <==> tag in q
  {
    var order :| Ordered(lines, order) && q == TagsOf(lines, order);
    var p := FindTagInOrder(lines, order, tag);
  }

  // LRU inclusion: after every trace the cache with more lines per set holds everything the
  // smaller one holds, and it has missed no more often.
  lemma {:induction false} Inclusion(small: Geometry, large: Geometry, addresses: seq<int>)
    requires small.Ok() && large.Ok()
    requires small.s == large.s && small.b == large.b && small.E <= large.E
    ensures forall k, tag :: 0 <= k < PowerOfTwo(small.s) && Holds(Run(small, addresses).sets[k], tag) ==>
              Holds(Run(large, addresses).sets[k], tag)
    ensures Run(large, addresses).misses <= Run(small, addresses).misses
  {
    forall k, tag | 0 <= k < PowerOfTwo(small.s) && Holds(Run(small, addresses).sets[k], tag)
      ensures Holds(Run(large, addresses).sets[k], tag)
    {
      SetInclusion(small, large, addresses, k, tag);
    }
    if addresses != [] {
      var front, a := addresses[..|addresses| - 1], addresses[|addresses| - 1];
      Inclusion(small, large, front);
      var k, tag := SetIndex(small, a), TagBits(small, a);
      SetInclusion(small, large, front, k, tag);
      MissesUnlessHeld(small, front, a);
      MissesUnlessHeld(large, front, a);
    }
  }

  lemma SetInclusion(small: Geometry, large: Geometry, addresses: seq<int>, k: nat, tag: int)
    requires small.Ok() && large.Ok() && k < PowerOfTwo(small.s)
    requires small.s == large.s && small.b == large.b && small.E <= large.E
    ensures Holds(Run(small, addresses).sets[k], tag) ==> Holds(Run(large, addresses).sets[k], tag)
  {
    LinesAreMostRecentTags(small, addresses, k);
    LinesAreMostRecentTags(large, addresses, k);
    SameHistory(small, large, addresses, k);
    var r := Recency(History(small, addresses, k));
    HoldsIffListed(Run(small, addresses).sets[k], Take(r, small.E), tag);
    HoldsIffListed(Run(large, addresses).sets[k], Take(r, large.E), tag);
  }

  lemma {:induction false} SameHistory(g: Geometry, g': Geometry, addresses: seq<int>, k: nat)
    requires g.s == g'.s && g.b == g'.b
    ensures History(g, addresses, k) == History(g', addresses, k)
  {
    if addresses != [] {
      SameHistory(g, g', addresses[..|addresses| - 1], k);
    }
  }

  lemma MissesUnlessHeld(g: Geometry, addresses: seq<int>, a: int)
    requires g.Ok()
    ensures var st := Run(g, addresses);
            Access(st, g, a).misses ==
              st.misses + (if Holds(st.sets[SetIndex(g, a)], TagBits(g, a)) then 0 else 1)
  {
    RunRefinesLists(g, addresses);
    var st, k, tag := Run(g, addresses), SetIndex(g, a), TagBits(g, a);
    ProcessRefinesTouch(st.sets[k], RunLists(g, addresses).sets[k], tag);
    HoldsIffListed(st.sets[k], RunLists(g, addresses).sets[k], tag);
  }

  // The whole program on a parsed trace: it prints a summary unless some operation is unknown, and
  // the numbers printed are those of the list-based cache on the probes of the trace.
  method RunProgram(g: Geometry, operations: seq<Operation>)
    returns (summary: bool, hits: int, misses: int, evictions: int)
    requires g.Ok()
    ensures summary <==> forall i :: 0 <= i < |operations| ==> operations[i].op in "IMLS"
    ensures summary ==>
      var l := RunLists(g, Probes(operations));
      hits == l.hits && misses == l.misses && evictions == l.evictions &&
      hits + misses == Occurrences(operations, 'L') + Occurrences(operations, 'S') + 2 * Occurrences(operations, 'M')
  {
    var simulator := new CacheSimulator(g);
    summary := simulator.Simulate(operations);
    hits, misses, evictions := simulator.hitCount, simulator.missCount, simulator.evictionCount;
    if summary {
      ProbesOfTrace(operations);
    }
    OperationsAreProbes(InitialSim(g), g, operations);
    RunRefinesLists(g, Probes(operations));
    CounterLaws(g, Probes(operations));
  }
}
