// The producer-consumer buffer of the prethreaded echo server, for any number of producers and
// consumers, any capacity and every interleaving of their single steps.
module BoundedBuffer {
  import opened Counting

  // Where a thread stands in sbuf_insert or sbuf_remove.
  datatype Point =
    | Idle      // before P(&slots), or P(&items) for a consumer
    | Admitted  // before P(&mutex)
    | Locked    // before ++rear, or ++front
    | Bumped    // before the access to buf
    | Accessed  // before V(&mutex)
    | Released  // before V(&items), or V(&slots) for a consumer

  // The remaining items of a producer, or the number of remaining removals of a consumer
  // together with the items it has taken.
  datatype Thread =
    | Producer(at: Point, todo: seq<int>)
    | Consumer(at: Point, wanted: nat, taken: seq<int>)

  // inserted and removed record the items in the order of the accesses to buf, putters and takers the
  // threads that made those accesses.
  datatype State = State(buf: seq<int>, front: nat, rear: nat, mutex: nat, slots: nat, items: nat,
                         threads: seq<Thread>, inserted: seq<int>, removed: seq<int>, putters: seq<nat>, takers: seq<nat>)

  predicate Busy(t: Thread) { if t.Producer? then t.todo != [] else t.wanted > 0 }

  predicate CanStep(s: State, i: nat) {
    && i < |s.threads|
    && |s.buf| > 0
    && Busy(s.threads[i])
    && match s.threads[i].at
       case Idle => if s.threads[i].Producer? then s.slots > 0 else s.items > 0
       case Admitted => s.mutex > 0
       case _ => true
  }

  // How a thread moves on; item is what its buffer slot holds.
  function Next(t: Thread, item: int): Thread
    requires Busy(t)
  {
    match t.at
    case Idle => t.(at := Admitted)
    case Admitted => t.(at := Locked)
    case Locked => t.(at := Bumped)
    case Bumped =>
      if t.Producer? then Producer(Accessed, t.todo) else Consumer(Accessed, t.wanted, t.taken + [item])
    case Accessed => t.(at := Released)
    case Released =>
      if t.Producer? then Producer(Idle, t.todo[1..]) else Consumer(Idle, t.wanted - 1, t.taken)
  }

  // One atomic step of thread i.
  function Step(s: State, i: nat): State
    requires CanStep(s, i)
  {
    var t := s.threads[i];
    var n := |s.buf|;
    var item := s.buf[s.front % n];
    var r := s.(threads := s.threads[i := Next(t, item)]);
    match (t.at, t.Producer?)
    case (Idle, true) => r.(slots := s.slots - 1)
    case (Idle, false) => r.(items := s.items - 1)
    case (Admitted, _) => r.(mutex := s.mutex - 1)
    case (Locked, true) => r.(rear := s.rear + 1)
    case (Locked, false) => r.(front := s.front + 1)
    case (Bumped, true) =>
      r.(buf := s.buf[s.rear % n := t.todo[0]], inserted := s.inserted + [t.todo[0]], putters := s.putters + [i])
    case (Bumped, false) => r.(removed := s.removed + [item], takers := s.takers + [i])
    case (Accessed, _) => r.(mutex := s.mutex + 1)
    case (Released, true) => r.(items := s.items + 1)
    case (Released, false) => r.(slots := s.slots + 1)
  }

  // The state after sbuf_init, with every thread before its first operation.
  predicate Initial(s: State) {
    && |s.buf| >= 1
    && s.front == s.rear == 0 && s.mutex == 1 && s.slots == |s.buf| && s.items == 0
    && s.inserted == [] && s.removed == [] && s.putters == [] && s.takers == []
    && forall i :: 0 <= i < |s.threads| ==> s.threads[i].at == Idle
  }

  // schedule leads from s to r; each entry is the thread that takes the next step.
  ghost predicate Reaches(s: State, schedule: seq<nat>, r: State)
    decreases |schedule|
  {
    if schedule == [] then s == r
    else CanStep(s, schedule[0]) && Reaches(Step(s, schedule[0]), schedule[1..], r)
  }

  // Counted program points.
  function InCritical(t: Thread): int { if t.at in {Locked, Bumped, Accessed} then 1 else 0 }

  // Producers that hold a slot they have not filled, and those that filled it without posting.
  function Filling(t: Thread): int { if t.Producer? && t.at in {Admitted, Locked, Bumped} then 1 else 0 }

  function Filled(t: Thread): int { if t.Producer? && t.at in {Accessed, Released} then 1 else 0 }

  // Consumers that claimed an item they have not read, and those that read it without posting.
  function Claimed(t: Thread): int { if t.Consumer? && t.at in {Admitted, Locked, Bumped} then 1 else 0 }

  function Read(t: Thread): int { if t.Consumer? && t.at in {Accessed, Released} then 1 else 0 }

  function RearAhead(t: Thread): int { if t.Producer? && t.at == Bumped then 1 else 0 }

  function FrontAhead(t: Thread): int { if t.Consumer? && t.at == Bumped then 1 else 0 }

  // Threads between their first P and their last V.
  function InFlight(t: Thread): int { if t.at != Idle then 1 else 0 }

  ghost predicate Tokens(s: State) {
    && s.mutex + Total(s.threads, InCritical) == 1
    && s.slots + s.items + Total(s.threads, Filling) + Total(s.threads, Filled)
         + Total(s.threads, Claimed) + Total(s.threads, Read) == |s.buf|
    && |s.inserted| - |s.removed| == s.items + Total(s.threads, Filled) + Total(s.threads, Claimed)
    && s.rear == |s.inserted| + Total(s.threads, RearAhead)
    && s.front == |s.removed| + Total(s.threads, FrontAhead)
  }

  function SlotOf(s: State, k: nat): nat
    requires |s.buf| >= 1
  {
    (k + 1) % |s.buf|
  }

  // Item number k sits in its slot from its insertion until its removal.
  ghost predicate Contents(s: State) {
    && |s.buf| >= 1
    && |s.removed| <= |s.inserted|
    && s.removed == s.inserted[..|s.removed|]
    && forall k :: |s.removed| <= k < |s.inserted| ==> s.buf[SlotOf(s, k)] == s.inserted[k]
  }

  ghost predicate Inv(s: State) {
    && Tokens(s) && Contents(s)
    && forall i :: 0 <= i < |s.threads| && s.threads[i].at != Idle ==> Busy(s.threads[i])
  }

  lemma InitialInv(s: State)
    requires Initial(s)
    ensures Inv(s)
  {
    TotalZero(s.threads, InCritical);
    TotalZero(s.threads, Filling);
    TotalZero(s.threads, Filled);
    TotalZero(s.threads, Claimed);
    TotalZero(s.threads, Read);
    TotalZero(s.threads, RearAhead);
    TotalZero(s.threads, FrontAhead);
  }

  lemma AllUpdates(ts: seq<Thread>, i: nat, t: Thread)
    requires i < |ts|
    ensures var us := ts[i := t];
      && Total(us, InCritical) == Total(ts, InCritical) - InCritical(ts[i]) + InCritical(t)
      && Total(us, Filling) == Total(ts, Filling) - Filling(ts[i]) + Filling(t)
      && Total(us, Filled) == Total(ts, Filled) - Filled(ts[i]) + Filled(t)
      && Total(us, Claimed) == Total(ts, Claimed) - Claimed(ts[i]) + Claimed(t)
      && Total(us, Read) == Total(ts, Read) - Read(ts[i]) + Read(t)
      && Total(us, RearAhead) == Total(ts, RearAhead) - RearAhead(ts[i]) + RearAhead(t)
      && Total(us, FrontAhead) == Total(ts, FrontAhead) - FrontAhead(ts[i]) + FrontAhead(t)
  {
    TotalUpdate(ts, i, t, InCritical);
    TotalUpdate(ts, i, t, Filling);
    TotalUpdate(ts, i, t, Filled);
    TotalUpdate(ts, i, t, Claimed);
    TotalUpdate(ts, i, t, Read);
    TotalUpdate(ts, i, t, RearAhead);
    TotalUpdate(ts, i, t, FrontAhead);
  }

  lemma ProducerStepTokens(s: State, i: nat)
    requires Tokens(s) && CanStep(s, i) && s.threads[i].Producer?
    ensures Tokens(Step(s, i))
  {
    AllUpdates(s.threads, i, Next(s.threads[i], s.buf[s.front % |s.buf|]));
  }

  lemma ConsumerStepTokens(s: State, i: nat)
    requires Tokens(s) && CanStep(s, i) && s.threads[i].Consumer?
    ensures Tokens(Step(s, i))
  {
    AllUpdates(s.threads, i, Next(s.threads[i], s.buf[s.front % |s.buf|]));
  }

  // A producer about to store, or a consumer about to load, is alone and in range.
  lemma AtAccess(s: State, i: nat)
    requires Inv(s) && CanStep(s, i) && s.threads[i].at == Bumped
    ensures s.threads[i].Producer? ==> s.rear == |s.inserted| + 1 && |s.inserted| - |s.removed| < |s.buf|
    ensures s.threads[i].Consumer? ==> s.front == |s.removed| + 1 && |s.removed| < |s.inserted|
  {
    var ts := s.threads;
    TotalNonnegative(ts, Filled);
    TotalNonnegative(ts, Claimed);
    TotalNonnegative(ts, Read);
    if ts[i].Producer? {
      TotalAtLeast(ts, i, RearAhead);
      TotalAtLeast(ts, i, Filling);
      TotalMonotone(ts, RearAhead, InCritical);
    } else {
      TotalAtLeast(ts, i, FrontAhead);
      TotalAtLeast(ts, i, Claimed);
      TotalMonotone(ts, FrontAhead, InCritical);
    }
  }

  lemma {:induction false} SlotsDiffer(x: int, y: int, n: int)
    requires n >= 1 && x < y < x + n
    ensures x % n != y % n
  {
    var d := y / n - x / n;
    assert y - x == n * d + (y % n - x % n) by {
      assert y == n * (y / n) + y % n && x == n * (x / n) + x % n;
    }
    if d >= 1 {
      assert n * d >= n;
    } else {
      assert n * d <= 0;
    }
  }

  lemma {:induction false} StepInv(s: State, i: nat)
    requires Inv(s) && CanStep(s, i)
    ensures Inv(Step(s, i))
  {
    if s.threads[i].Producer? {
      ProducerStepTokens(s, i);
    } else {
      ConsumerStepTokens(s, i);
    }
    if s.threads[i].at == Bumped {
      AtAccess(s, i);
    }
    StepContents(s, i);
  }

  lemma {:induction false} StepContents(s: State, i: nat)
    requires Contents(s) && CanStep(s, i)
    requires s.threads[i].at == Bumped && s.threads[i].Producer? ==>
      s.rear == |s.inserted| + 1 && |s.inserted| - |s.removed| < |s.buf|
    requires s.threads[i].at == Bumped && s.threads[i].Consumer? ==>
      s.front == |s.removed| + 1 && |s.removed| < |s.inserted|
    ensures Contents(Step(s, i))
  {
    var r := Step(s, i);
    if s.threads[i].at == Bumped && s.threads[i].Producer? {
      forall k | |r.removed| <= k < |r.inserted| ensures r.buf[SlotOf(r, k)] == r.inserted[k] {
        if k < |s.inserted| {
          SlotsDiffer(k + 1, s.rear, |s.buf|);
        }
      }
    }
  }

  lemma {:induction false} ReachableInv(s: State, schedule: seq<nat>, r: State)
    requires Inv(s) && Reaches(s, schedule, r)
    ensures Inv(r)
    decreases |schedule|
  {
    if schedule != [] {
      StepInv(s, schedule[0]);
      ReachableInv(Step(s, schedule[0]), schedule[1..], r);
    }
  }

  // FIFO: in every interleaving the items taken are a prefix of the items put, in access order.
  lemma FirstInFirstOut(s: State, schedule: seq<nat>, r: State)
    requires Initial(s) && Reaches(s, schedule, r)
    ensures r.removed <= r.inserted
    ensures |r.inserted| - |r.removed| <= |r.buf|
  {
    InitialInv(s);
    ReachableInv(s, schedule, r);
    TotalNonnegative(r.threads, Filling);
    TotalNonnegative(r.threads, Read);
  }

  // No unread item is overwritten, and no slot is read before it was written.
  lemma AccessesAreSafe(s: State, schedule: seq<nat>, r: State, i: nat)
    requires Initial(s) && Reaches(s, schedule, r) && CanStep(r, i) && r.threads[i].at == Bumped
    ensures r.threads[i].Producer? ==>
      forall k :: |r.removed| <= k < |r.inserted| ==> SlotOf(r, k) != r.rear % |r.buf|
    ensures r.threads[i].Consumer? ==>
      |r.removed| < |r.inserted| && r.buf[r.front % |r.buf|] == r.inserted[|r.removed|]
    ensures forall j :: 0 <= j < |r.threads| && j != i ==> r.threads[j].at !in {Locked, Bumped, Accessed}
  {
    InitialInv(s);
    ReachableInv(s, schedule, r);
    AtAccess(r, i);
    if r.threads[i].Producer? {
      forall k | |r.removed| <= k < |r.inserted| ensures SlotOf(r, k) != r.rear % |r.buf| {
        SlotsDiffer(k + 1, r.rear, |r.buf|);
      }
    }
    forall j | 0 <= j < |r.threads| && j != i ensures r.threads[j].at !in {Locked, Bumped, Accessed} {
      TotalAtLeastTwo(r.threads, i, j, InCritical);
    }
  }

  // Slots, items and the threads inside an operation always add up to the capacity.
  lemma TokenConservation(s: State, schedule: seq<nat>, r: State)
    requires Initial(s) && Reaches(s, schedule, r)
    ensures r.slots + r.items + Total(r.threads, InFlight) == |r.buf|
    ensures r.rear - Total(r.threads, RearAhead) - (r.front - Total(r.threads, FrontAhead)) ==
              r.items + Total(r.threads, Filled) + Total(r.threads, Claimed)
  {
    InitialInv(s);
    ReachableInv(s, schedule, r);
    InFlightSplits(r.threads);
  }

  function ProducerInFlight(t: Thread): int { Filling(t) + Filled(t) }

  function ConsumerInFlight(t: Thread): int { Claimed(t) + Read(t) }

  lemma InFlightSplits(ts: seq<Thread>)
    ensures Total(ts, InFlight) == Total(ts, Filling) + Total(ts, Filled) + Total(ts, Claimed) + Total(ts, Read)
  {
    TotalSum(ts, InFlight, ProducerInFlight, ConsumerInFlight);
    TotalSum(ts, ProducerInFlight, Filling, Filled);
    TotalSum(ts, ConsumerInFlight, Claimed, Read);
  }

  // Operations still to reach their access to buf.
  function ToInsert(t: Thread): int { if t.Producer? then |t.todo| - Filled(t) else 0 }

  function ToRemove(t: Thread): int { if t.Consumer? then t.wanted - Read(t) else 0 }

  // Inserts and removals done or planned, in equal numbers.
  ghost predicate Balanced(s: State) {
    |s.inserted| + Total(s.threads, ToInsert) == |s.removed| + Total(s.threads, ToRemove)
  }

  // Steps still to be taken by a thread.
  function Work(t: Thread): int {
    (if t.Producer? then 6 * |t.todo| else 6 * t.wanted)
      - match t.at case Idle => 0 case Admitted => 1 case Locked => 2 case Bumped => 3 case Accessed => 4 case Released => 5
  }

  lemma NextWork(t: Thread, item: int)
    requires Busy(t)
    ensures Work(Next(t, item)) == Work(t) - 1
    ensures ToInsert(Next(t, item)) == ToInsert(t) - (if t.Producer? && t.at == Bumped then 1 else 0)
    ensures ToRemove(Next(t, item)) == ToRemove(t) - (if t.Consumer? && t.at == Bumped then 1 else 0)
  {
  }

  // Every step costs one unit of work and keeps the balance.
  lemma {:induction false} StepWork(s: State, i: nat)
    requires CanStep(s, i)
    ensures Total(Step(s, i).threads, Work) == Total(s.threads, Work) - 1
    ensures Balanced(s) ==> Balanced(Step(s, i))
  {
    var t, item := s.threads[i], s.buf[s.front % |s.buf|];
    NextWork(t, item);
    TotalUpdate(s.threads, i, Next(t, item), Work);
    TotalUpdate(s.threads, i, Next(t, item), ToInsert);
    TotalUpdate(s.threads, i, Next(t, item), ToRemove);
  }

  predicate Finished(s: State) {
    forall i :: 0 <= i < |s.threads| ==> !Busy(s.threads[i])
  }

  ghost predicate Stuck(s: State) {
    forall i: nat :: !CanStep(s, i)
  }

  lemma HolderCanMove(s: State)
    requires Inv(s) && s.mutex == 0
    ensures !Stuck(s)
  {
    var i := SomeCounted(s.threads, InCritical);
    assert CanStep(s, i);
  }

  // A state in which some thread still has work has a thread that can move.
  lemma StuckOnlyWhenFinished(s: State)
    requires Inv(s) && Balanced(s) && Stuck(s)
    ensures Finished(s)
  {
    var ts := s.threads;
    if s.mutex == 0 {
      HolderCanMove(s);
    }
    forall i | 0 <= i < |ts| ensures ts[i].at == Idle {
      assert !CanStep(s, i);
    }
    TotalZero(ts, Filling);
    TotalZero(ts, Filled);
    TotalZero(ts, Claimed);
    TotalZero(ts, Read);
    if i :| 0 <= i < |ts| && Busy(ts[i]) {
      assert !CanStep(s, i);
      if ts[i].Producer? {
        assert s.slots == 0 && s.items >= 1;
        forall j | 0 <= j < |ts| ensures ToRemove(ts[j]) == 0 {
          assert !CanStep(s, j);
        }
        TotalZero(ts, ToRemove);
        TotalAtLeastPositive(ts, i);
      } else {
        assert s.items == 0;
        forall j | 0 <= j < |ts| ensures ToInsert(ts[j]) == 0 {
          assert !CanStep(s, j);
        }
        TotalZero(ts, ToInsert);
        TotalAtLeastPositive(ts, i);
      }
    }
  }

  // With all threads idle the pending counts are the plain lengths, which are not negative.
  lemma TotalAtLeastPositive(ts: seq<Thread>, i: nat)
    requires i < |ts| && Busy(ts[i]) && forall j :: 0 <= j < |ts| ==> ts[j].at == Idle
    ensures ts[i].Producer? ==> Total(ts, ToInsert) >= 1
    ensures ts[i].Consumer? ==> Total(ts, ToRemove) >= 1
  {
    TotalIdle(ts);
    if ts[i].Producer? {
      TotalAtLeast(ts, i, Items);
    } else {
      TotalAtLeast(ts, i, Wants);
    }
  }

  function Items(t: Thread): int { if t.Producer? then |t.todo| else 0 }

  function Wants(t: Thread): int { if t.Consumer? then t.wanted else 0 }

  lemma {:induction false} TotalIdle(ts: seq<Thread>)
    requires forall j :: 0 <= j < |ts| ==> ts[j].at == Idle
    ensures Total(ts, ToInsert) == Total(ts, Items) && Total(ts, ToRemove) == Total(ts, Wants)
  {
    if ts != [] {
      TotalIdle(ts[1..]);
    }
  }

  lemma {:induction false} RunWork(s: State, schedule: seq<nat>, r: State)
    requires Reaches(s, schedule, r) && Balanced(s)
    ensures Balanced(r) && |schedule| == Total(s.threads, Work) - Total(r.threads, Work)
    decreases |schedule|
  {
    if schedule != [] {
      StepWork(s, schedule[0]);
      RunWork(Step(s, schedule[0]), schedule[1..], r);
    }
  }

  ghost predicate Complete(r: State) {
    && Finished(r)
    && r.mutex == 1 && r.slots == |r.buf| && r.items == 0
    && r.removed == r.inserted
  }

  // With as many removals as insertions planned, no reachable state is stuck before the end, every
  // run is at most as long as the work, and every run that cannot be extended completed it all.
  lemma EveryMaximalRunCompletes(s: State, schedule: seq<nat>, r: State)
    requires Initial(s) && Balanced(s) && Reaches(s, schedule, r)
    ensures |schedule| <= Total(s.threads, Work)
    ensures Stuck(r) <==> Complete(r)
    ensures Stuck(r) <==> |schedule| == Total(s.threads, Work)
  {
    InitialInv(s);
    ReachableInv(s, schedule, r);
    RunWork(s, schedule, r);
    WorkLeft(r);
    if Stuck(r) {
      StuckOnlyWhenFinished(r);
    }
    if Finished(r) {
      FinishedIsComplete(r);
    }
  }

  lemma WorkLeft(s: State)
    requires Inv(s)
    ensures Total(s.threads, Work) >= 0
    ensures Total(s.threads, Work) == 0 <==> Finished(s)
  {
    WorkOfThreads(s.threads);
  }

  lemma {:induction false} WorkOfThreads(ts: seq<Thread>)
    requires forall i :: 0 <= i < |ts| && ts[i].at != Idle ==> Busy(ts[i])
    ensures Total(ts, Work) >= 0
    ensures Total(ts, Work) == 0 <==> forall i :: 0 <= i < |ts| ==> !Busy(ts[i])
  {
    if ts != [] {
      WorkOfThreads(ts[1..]);
      assert Work(ts[0]) >= 0 && (Work(ts[0]) == 0 <==> !Busy(ts[0]));
      if forall i :: 0 <= i < |ts[1..]| ==> !Busy(ts[1..][i]) {
        assert forall i :: 1 <= i < |ts| ==> ts[i] == ts[1..][i - 1];
      }
    }
  }

  lemma FinishedIsComplete(s: State)
    requires Inv(s) && Balanced(s) && Finished(s)
    ensures Complete(s) && Stuck(s)
  {
    var ts := s.threads;
    forall i | 0 <= i < |ts| ensures ts[i].at == Idle {
      assert !Busy(ts[i]);
    }
    TotalZero(ts, InCritical);
    TotalZero(ts, Filling);
    TotalZero(ts, Filled);
    TotalZero(ts, Claimed);
    TotalZero(ts, Read);
    TotalZero(ts, ToInsert);
    TotalZero(ts, ToRemove);
  }

  // ---- every item, in its producer's order, to one consumer ----

  // The items of one thread in a log.
  function Share(items: seq<int>, tags: seq<nat>, i: nat): seq<int>
    requires |items| == |tags|
  {
    if items == [] then []
    else
      var n := |items| - 1;
      var front := Share(items[..n], tags[..n], i);
      if tags[n] == i then front + [items[n]] else front
  }

  lemma ShareSnoc(items: seq<int>, tags: seq<nat>, x: int, k: nat, i: nat)
    requires |items| == |tags|
    ensures Share(items + [x], tags + [k], i) == if k == i then Share(items, tags, i) + [x] else Share(items, tags, i)
  {
    var n := |items|;
    assert (items + [x])[..n] == items && (tags + [k])[..n] == tags;
  }

  // What a producer has not put into the buffer yet, and what a consumer has taken out of it.
  function Left(t: Thread): seq<int> {
    if t.Consumer? then [] else if t.at in {Accessed, Released} && t.todo != [] then t.todo[1..] else t.todo
  }

  function Taken(t: Thread): seq<int> { if t.Consumer? then t.taken else [] }

  predicate Tagged(s: State) { |s.putters| == |s.inserted| && |s.takers| == |s.removed| }

  // Thread i has put the items all misses, in that order.
  ghost predicate PutInOrder(all: seq<int>, s: State, i: nat) {
    i < |s.threads| && Tagged(s) && all == Share(s.inserted, s.putters, i) + Left(s.threads[i])
  }

  // Thread i has taken what it had, and then what it removed.
  ghost predicate TookInOrder(had: seq<int>, s: State, i: nat) {
    i < |s.threads| && Tagged(s) && s.threads[i].Consumer? && Taken(s.threads[i]) == had + Share(s.removed, s.takers, i)
  }

  lemma NextPuts(t: Thread, item: int)
    requires Busy(t)
    ensures Left(t) == if t.Producer? && t.at == Bumped then [t.todo[0]] + Left(Next(t, item)) else Left(Next(t, item))
  {
  }

  lemma {:induction false} StepPuts(all: seq<int>, s: State, i: nat, j: nat)
    requires CanStep(s, i) && PutInOrder(all, s, j)
    ensures PutInOrder(all, Step(s, i), j)
  {
    var t := s.threads[i];
    NextPuts(t, s.buf[s.front % |s.buf|]);
    if t.at == Bumped && t.Producer? {
      ShareSnoc(s.inserted, s.putters, t.todo[0], i, j);
    }
  }

  lemma {:induction false} StepTakes(had: seq<int>, s: State, i: nat, j: nat)
    requires CanStep(s, i) && TookInOrder(had, s, j)
    ensures TookInOrder(had, Step(s, i), j)
  {
    var t := s.threads[i];
    if t.at == Bumped && t.Consumer? {
      ShareSnoc(s.removed, s.takers, s.buf[s.front % |s.buf|], i, j);
    }
  }

  lemma {:induction false} RunPuts(all: seq<int>, s: State, schedule: seq<nat>, r: State, j: nat)
    requires Reaches(s, schedule, r) && PutInOrder(all, s, j)
    ensures PutInOrder(all, r, j)
    decreases |schedule|
  {
    if schedule != [] {
      StepPuts(all, s, schedule[0], j);
      RunPuts(all, Step(s, schedule[0]), schedule[1..], r, j);
    }
  }

  lemma {:induction false} RunTakes(had: seq<int>, s: State, schedule: seq<nat>, r: State, j: nat)
    requires Reaches(s, schedule, r) && TookInOrder(had, s, j)
    ensures TookInOrder(had, r, j)
    decreases |schedule|
  {
    if schedule != [] {
      StepTakes(had, s, schedule[0], j);
      RunTakes(had, Step(s, schedule[0]), schedule[1..], r, j);
    }
  }

  // In every reachable state the inserted items of one producer are its own, in its order, and each
  // consumer has exactly the items it removed, in the order of removal.
  lemma {:induction false} InOwnOrder(s: State, schedule: seq<nat>, r: State, i: nat)
    requires Initial(s) && Reaches(s, schedule, r) && i < |s.threads|
    ensures Tagged(r) && |r.threads| == |s.threads|
    ensures s.threads[i].Producer? ==> s.threads[i].todo == Share(r.inserted, r.putters, i) + Left(r.threads[i])
    ensures s.threads[i].Consumer? ==> Taken(r.threads[i]) == s.threads[i].taken + Share(r.removed, r.takers, i)
  {
    RunKeepsThreads(s, schedule, r);
    if s.threads[i].Producer? {
      RunPuts(s.threads[i].todo, s, schedule, r, i);
    } else {
      RunTakes(s.threads[i].taken, s, schedule, r, i);
    }
  }

  lemma {:induction false} RunKeepsThreads(s: State, schedule: seq<nat>, r: State)
    requires Reaches(s, schedule, r) && Tagged(s)
    ensures Tagged(r) && |r.threads| == |s.threads|
    decreases |schedule|
  {
    if schedule != [] {
      RunKeepsThreads(Step(s, schedule[0]), schedule[1..], r);
    }
  }

  // How often x is among the items of a list.
  function Times(items: seq<int>, x: int): nat { multiset(items)[x] }

  lemma TimesSnoc(items: seq<int>, y: int, x: int)
    ensures Times(items + [y], x) == Times(items, x) + if y == x then 1 else 0
  {
  }

  lemma TimesFirst(items: seq<int>, x: int)
    requires items != []
    ensures Times(items, x) == Times(items[1..], x) + if items[0] == x then 1 else 0
  {
    assert items == [items[0]] + items[1..];
  }

  function LeftTimes(x: int): Thread -> int { t => Times(Left(t), x) }

  function TakenTimes(x: int): Thread -> int { t => Times(Taken(t), x) }

  // No step makes or loses an item.
  ghost predicate Conserves(s: State, r: State, x: int) {
    && Total(r.threads, LeftTimes(x)) + Times(r.inserted, x) == Total(s.threads, LeftTimes(x)) + Times(s.inserted, x)
    && Total(r.threads, TakenTimes(x)) + Times(s.removed, x) == Total(s.threads, TakenTimes(x)) + Times(r.removed, x)
  }

  lemma {:induction false} NextLeft(t: Thread, item: int, x: int)
    requires Busy(t)
    ensures Times(Left(t), x)
      == Times(Left(Next(t, item)), x) + if t.Producer? && t.at == Bumped && t.todo[0] == x then 1 else 0
  {
    if t.Producer? {
      TimesFirst(t.todo, x);
    }
  }

  lemma {:induction false} NextTaken(t: Thread, item: int, x: int)
    requires Busy(t)
    ensures Times(Taken(Next(t, item)), x)
      == Times(Taken(t), x) + if t.Consumer? && t.at == Bumped && item == x then 1 else 0
  {
    if t.Consumer? {
      TimesSnoc(t.taken, item, x);
    }
  }

  lemma {:induction false} StepConserves(s: State, i: nat, x: int)
    requires CanStep(s, i)
    ensures Conserves(s, Step(s, i), x)
  {
    var t, item := s.threads[i], s.buf[s.front % |s.buf|];
    NextLeft(t, item, x);
    NextTaken(t, item, x);
    TotalUpdate(s.threads, i, Next(t, item), LeftTimes(x));
    TotalUpdate(s.threads, i, Next(t, item), TakenTimes(x));
    if t.at == Bumped {
      if t.Producer? {
        TimesSnoc(s.inserted, t.todo[0], x);
      } else {
        TimesSnoc(s.removed, item, x);
      }
    }
  }

  lemma {:induction false} RunConserves(s: State, schedule: seq<nat>, r: State, x: int)
    requires Reaches(s, schedule, r)
    ensures Conserves(s, r, x)
    decreases |schedule|
  {
    if schedule != [] {
      StepConserves(s, schedule[0], x);
      RunConserves(Step(s, schedule[0]), schedule[1..], r, x);
    }
  }

  // When a run cannot be extended, the consumers have taken every item of every producer, as often as
  // the producers had it.
  lemma {:induction false} EveryItemDelivered(s: State, schedule: seq<nat>, r: State, x: int)
    requires Initial(s) && Balanced(s) && Reaches(s, schedule, r) && Stuck(r)
    ensures Total(r.threads, TakenTimes(x)) == Total(s.threads, TakenTimes(x)) + Total(s.threads, LeftTimes(x))
  {
    EveryMaximalRunCompletes(s, schedule, r);
    RunConserves(s, schedule, r, x);
    forall i | 0 <= i < |r.threads| ensures LeftTimes(x)(r.threads[i]) == 0 {
      assert !Busy(r.threads[i]);
    }
    TotalZero(r.threads, LeftTimes(x));
  }

  // And each producer's items have been inserted in its order.
  lemma {:induction false} EveryProducerServed(s: State, schedule: seq<nat>, r: State, i: nat)
    requires Initial(s) && Balanced(s) && Reaches(s, schedule, r) && Stuck(r)
    requires i < |s.threads| && s.threads[i].Producer?
    ensures Tagged(r) && Share(r.inserted, r.putters, i) == s.threads[i].todo
  {
    EveryMaximalRunCompletes(s, schedule, r);
    InOwnOrder(s, schedule, r, i);
    assert !Busy(r.threads[i]);
  }

  // The program's own form: shared fields changed in place, one step at a time.
  class Sbuf {
    const n: nat
    const buf: array<int>
    var front: nat
    var rear: nat
    var mutex: nat
    var slots: nat
    var items: nat
    var threads: seq<Thread>
    ghost var inserted: seq<int>
    ghost var removed: seq<int>
    ghost var putters: seq<nat>
    ghost var takers: seq<nat>

    ghost function Current(): State
      reads this, buf
    {
      State(buf[..], front, rear, mutex, slots, items, threads, inserted, removed, putters, takers)
    }

    // sbuf_init, with the threads that will use the buffer.
    constructor (n: nat, threads: seq<Thread>)
      requires n >= 1 && forall i :: 0 <= i < |threads| ==> threads[i].at == Idle
      ensures Initial(Current()) && this.n == buf.Length == n && this.threads == threads
      ensures fresh(buf)
    {
      this.n := n;
      this.buf := new int[n](_ => 0);
      front, rear := 0, 0;
      mutex, slots, items := 1, n, 0;
      this.threads := threads;
      inserted, removed, putters, takers := [], [], [], [];
    }

    // Let thread i perform its next line of sbuf_insert or sbuf_remove.
    method Advance(i: nat)
      requires buf.Length == n && CanStep(Current(), i)
      modifies this, buf
      ensures Current() == Step(old(Current()), i)
    {
      var t := threads[i];
      match t
      case Producer(at, todo) =>
        match at {
          case Idle =>
            slots := slots - 1;
            threads := threads[i := Producer(Admitted, todo)];
          case Admitted =>
            mutex := mutex - 1;
            threads := threads[i := Producer(Locked, todo)];
          case Locked =>
            rear := rear + 1;
            threads := threads[i := Producer(Bumped, todo)];
          case Bumped =>
            buf[rear % n] := todo[0];
            inserted, putters := inserted + [todo[0]], putters + [i];
            threads := threads[i := Producer(Accessed, todo)];
          case Accessed =>
            mutex := mutex + 1;
            threads := threads[i := Producer(Released, todo)];
          case Released =>
            items := items + 1;
            threads := threads[i := Producer(Idle, todo[1..])];
        }
      case Consumer(at, wanted, taken) =>
        match at {
          case Idle =>
            items := items - 1;
            threads := threads[i := Consumer(Admitted, wanted, taken)];
          case Admitted =>
            mutex := mutex - 1;
            threads := threads[i := Consumer(Locked, wanted, taken)];
          case Locked =>
            front := front + 1;
            threads := threads[i := Consumer(Bumped, wanted, taken)];
          case Bumped =>
            var item := buf[front % n];
            removed, takers := removed + [item], takers + [i];
            threads := threads[i := Consumer(Accessed, wanted, taken + [item])];
          case Accessed =>
            mutex := mutex + 1;
            threads := threads[i := Consumer(Released, wanted, taken)];
          case Released =>
            slots := slots + 1;
            threads := threads[i := Consumer(Idle, wanted - 1, taken)];
        }
    }

    // Any scheduler that picks threads able to move reaches a state of the step machine.
    method Run(schedule: seq<nat>) returns (steps: nat)
      requires buf.Length == n
      modifies this, buf
      ensures steps <= |schedule| && Reaches(old(Current()), schedule[..steps], Current())
      ensures steps < |schedule| ==> !CanStep(Current(), schedule[steps])
    {
      steps := 0;
      while steps < |schedule|
        invariant steps <= |schedule| && Reaches(old(Current()), schedule[..steps], Current())
      {
        var i := schedule[steps];
        var able := AbleToMove(i);
        if !able {
          return;
        }
        OneMoreStep(old(Current()), schedule[..steps], Current(), i);
        Advance(i);
        assert schedule[..steps + 1] == schedule[..steps] + [i];
        steps := steps + 1;
      }
    }

    method AbleToMove(i: nat) returns (able: bool)
      requires buf.Length == n
      ensures able <==> CanStep(Current(), i)
    {
      able := false;
      if i < |threads| && n > 0 && Busy(threads[i]) {
        match threads[i].at {
          case Idle => able := if threads[i].Producer? then slots > 0 else items > 0;
          case Admitted => able := mutex > 0;
          case _ => able := true;
        }
      }
    }
  }

  lemma {:induction false} OneMoreStep(s: State, schedule: seq<nat>, r: State, i: nat)
    requires Reaches(s, schedule, r) && CanStep(r, i)
    ensures Reaches(s, schedule + [i], Step(r, i))
    decreases |schedule|
  {
    if schedule == [] {
      assert [i][1..] == [];
    } else {
      OneMoreStep(Step(s, schedule[0]), schedule[1..], r, i);
      assert (schedule + [i])[1..] == schedule[1..] + [i];
    }
  }
}
