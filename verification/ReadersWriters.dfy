// The readers-writers lock that prefers readers, for any number of readers and writers, any numbers
// of sections and every interleaving of their single steps.
module ReadersWriters {
  import opened Counting

  // Where a thread stands in the loop of reader or writer.
  datatype Point =
    | Rest       // before P(&mutex) of a reader, before P(&w) of a writer
    | Increment  // before ++read_cnt
    | TestFirst  // before the test read_cnt == 1
    | FirstP     // before P(&w) of the first reader
    | EnterV     // before V(&mutex)
    | Reading    // in the section, before P(&mutex)
    | Decrement  // before --read_cnt
    | TestLast   // before the test read_cnt == 0
    | LastV      // before V(&w) of the last reader
    | LeaveV     // before V(&mutex)
    | Writing    // in the section of a writer, before V(&w)

  // The shared variables, and where each thread stands.
  datatype Lock = Lock(readcnt: int, mutex: nat, w: nat, points: seq<Point>)

  // The point after p, for a thread that has begun a section.
  function Onward(readcnt: int, p: Point): Point {
    match p
    case Rest => Rest
    case Increment => TestFirst
    case TestFirst => if readcnt == 1 then FirstP else EnterV
    case FirstP => EnterV
    case EnterV => Reading
    case Reading => Decrement
    case Decrement => TestLast
    case TestLast => if readcnt == 0 then LastV else LeaveV
    case LastV => LeaveV
    case LeaveV => Rest
    case Writing => Rest
  }

  // Thread i may go on to the given point; one at rest may begin to read or to write.
  predicate Enabled(l: Lock, i: nat, to: Point) {
    && i < |l.points|
    && match l.points[i]
       case Rest => (to == Increment && l.mutex > 0) || (to == Writing && l.w > 0)
       case FirstP => to == EnterV && l.w > 0
       case Reading => to == Decrement && l.mutex > 0
       case p => to == Onward(l.readcnt, p)
  }

  function Move(l: Lock, i: nat, to: Point): Lock
    requires Enabled(l, i, to)
  {
    var m := l.(points := l.points[i := to]);
    match l.points[i]
    case Rest => if to == Writing then m.(w := l.w - 1) else m.(mutex := l.mutex - 1)
    case Increment => m.(readcnt := l.readcnt + 1)
    case FirstP => m.(w := l.w - 1)
    case EnterV | LeaveV => m.(mutex := l.mutex + 1)
    case Reading => m.(mutex := l.mutex - 1)
    case Decrement => m.(readcnt := l.readcnt - 1)
    case LastV | Writing => m.(w := l.w + 1)
    case TestFirst | TestLast => m
  }

  // Counted program points.
  function InMutex(p: Point): int {
    if p in {Increment, TestFirst, FirstP, EnterV, Decrement, TestLast, LastV, LeaveV} then 1 else 0
  }

  function Inside(p: Point): int { if p in {EnterV, Reading, Decrement} then 1 else 0 }

  function Entering(p: Point): int { if p in {TestFirst, FirstP} then 1 else 0 }

  function Leaving(p: Point): int { if p in {TestLast, LastV} then 1 else 0 }

  // Readers between their increment and their decrement.
  function Counted(p: Point): int { Inside(p) + Entering(p) }

  // Readers on whose behalf w is held.
  function Holding(p: Point): int { Inside(p) + Leaving(p) }

  function Testing(p: Point): int { Entering(p) + Leaving(p) }

  // Writers in their section.
  function Alone(p: Point): int { if p == Writing then 1 else 0 }

  ghost predicate Locking(l: Lock) {
    && l.mutex + Total(l.points, InMutex) == 1
    && l.readcnt == Total(l.points, Inside) + Total(l.points, Entering)
    && l.w + Total(l.points, Alone)
         + (if Total(l.points, Inside) + Total(l.points, Leaving) > 0 then 1 else 0) == 1
    && (forall i :: 0 <= i < |l.points| && l.points[i] == FirstP ==> l.readcnt == 1)
    && (forall i :: 0 <= i < |l.points| && l.points[i] == LastV ==> l.readcnt == 0)
  }

  lemma LockUpdates(ps: seq<Point>, i: nat, p: Point)
    requires i < |ps|
    ensures var qs := ps[i := p];
      && Total(qs, InMutex) == Total(ps, InMutex) - InMutex(ps[i]) + InMutex(p)
      && Total(qs, Inside) == Total(ps, Inside) - Inside(ps[i]) + Inside(p)
      && Total(qs, Entering) == Total(ps, Entering) - Entering(ps[i]) + Entering(p)
      && Total(qs, Leaving) == Total(ps, Leaving) - Leaving(ps[i]) + Leaving(p)
      && Total(qs, Alone) == Total(ps, Alone) - Alone(ps[i]) + Alone(p)
  {
    TotalUpdate(ps, i, p, InMutex);
    TotalUpdate(ps, i, p, Inside);
    TotalUpdate(ps, i, p, Entering);
    TotalUpdate(ps, i, p, Leaving);
    TotalUpdate(ps, i, p, Alone);
  }

  lemma LockBounds(l: Lock, i: nat)
    requires Locking(l) && i < |l.points|
    ensures var ps := l.points;
      && Inside(ps[i]) <= Total(ps, Inside) && Entering(ps[i]) <= Total(ps, Entering)
      && Leaving(ps[i]) <= Total(ps, Leaving) && Alone(ps[i]) <= Total(ps, Alone)
      && InMutex(ps[i]) <= Total(ps, InMutex) <= 1
      && 0 <= Total(ps, Entering) + Total(ps, Leaving) <= Total(ps, InMutex)
    ensures forall j :: 0 <= j < |l.points| && j != i && InMutex(l.points[i]) == 1 ==> InMutex(l.points[j]) == 0
  {
    var ps := l.points;
    TotalAtLeast(ps, i, InMutex);
    TotalAtLeast(ps, i, Inside);
    TotalAtLeast(ps, i, Entering);
    TotalAtLeast(ps, i, Leaving);
    TotalAtLeast(ps, i, Alone);
    TotalNonnegative(ps, Entering);
    TotalNonnegative(ps, Leaving);
    TotalSum(ps, Testing, Entering, Leaving);
    TotalMonotone(ps, Testing, InMutex);
    forall j | 0 <= j < |ps| && j != i && InMutex(ps[i]) == 1 ensures InMutex(ps[j]) == 0 {
      TotalAtLeastTwo(ps, i, j, InMutex);
    }
  }

  lemma EnterLocking(l: Lock, i: nat, to: Point)
    requires Locking(l) && Enabled(l, i, to) && l.points[i] in {Increment, TestFirst, FirstP, EnterV}
    ensures Locking(Move(l, i, to))
  {
    LockUpdates(l.points, i, to);
    LockBounds(l, i);
  }

  lemma LeaveLocking(l: Lock, i: nat, to: Point)
    requires Locking(l) && Enabled(l, i, to) && l.points[i] in {Reading, Decrement, TestLast, LastV, LeaveV}
    ensures Locking(Move(l, i, to))
  {
    LockUpdates(l.points, i, to);
    LockBounds(l, i);
  }

  lemma BorderLocking(l: Lock, i: nat, to: Point)
    requires Locking(l) && Enabled(l, i, to) && l.points[i] in {Rest, Writing}
    ensures Locking(Move(l, i, to))
  {
    LockUpdates(l.points, i, to);
    LockBounds(l, i);
  }

  // Every move of every thread keeps the counts.
  lemma MoveLocking(l: Lock, i: nat, to: Point)
    requires Locking(l) && Enabled(l, i, to)
    ensures Locking(Move(l, i, to))
  {
    if l.points[i] in {Rest, Writing} {
      BorderLocking(l, i, to);
    } else if l.points[i] in {Increment, TestFirst, FirstP, EnterV} {
      EnterLocking(l, i, to);
    } else {
      LeaveLocking(l, i, to);
    }
  }

  lemma FreeLock(l: Lock)
    requires forall i :: 0 <= i < |l.points| ==> l.points[i] == Rest
    ensures Locking(l) <==> l.mutex == 1 && l.w == 1 && l.readcnt == 0
  {
    TotalZero(l.points, InMutex);
    TotalZero(l.points, Inside);
    TotalZero(l.points, Entering);
    TotalZero(l.points, Leaving);
    TotalZero(l.points, Alone);
  }

  // While a thread is writing, no other thread is writing and none is reading.
  lemma WriterExcludes(l: Lock, i: nat, j: nat)
    requires Locking(l) && i < |l.points| && j < |l.points| && i != j && l.points[i] == Writing
    ensures l.points[j] != Writing && Holding(l.points[j]) == 0
  {
    var ps := l.points;
    TotalAtLeastTwo(ps, i, j, Alone);
    TotalAtLeast(ps, j, Inside);
    TotalAtLeast(ps, j, Leaving);
    TotalNonnegative(ps, Inside);
    TotalNonnegative(ps, Leaving);
  }

  // read_cnt is the number of readers between their increment and their decrement.
  lemma ReadersCounted(l: Lock)
    requires Locking(l)
    ensures l.readcnt == Total(l.points, Counted)
  {
    TotalSum(l.points, Counted, Inside, Entering);
  }

  // Whoever holds the mutex can move, except a first reader that waits for a writer, who can.
  lemma HolderCanMove(l: Lock) returns (i: nat, to: Point)
    requires Locking(l) && l.mutex == 0
    ensures Enabled(l, i, to) && l.points[i] != Rest
  {
    i := SomeCounted(l.points, InMutex);
    if l.points[i] == FirstP && l.w == 0 {
      LockBounds(l, i);
      TotalNonnegative(l.points, Inside);
      i := SomeCounted(l.points, Alone);
    }
    to := Onward(l.readcnt, l.points[i]);
  }

  // As long as some thread is in a section, or on its way in or out, one of those can move.
  lemma SomeoneCanMove(l: Lock, k: nat) returns (i: nat, to: Point)
    requires Locking(l) && k < |l.points| && l.points[k] != Rest
    ensures Enabled(l, i, to) && l.points[i] != Rest
  {
    if l.mutex == 0 {
      i, to := HolderCanMove(l);
    } else {
      LockBounds(l, k);
      i, to := k, Onward(l.readcnt, l.points[k]);
    }
  }

  // ---- readers and writers with finitely many sections ahead of them ----

  // sections counts the turns of the loop a thread has not finished.
  datatype Thread =
    | Reader(at: Point, sections: nat)
    | Writer(at: Point, sections: nat)

  datatype State = State(readcnt: int, mutex: nat, w: nat, threads: seq<Thread>)

  ghost function LockOf(s: State): Lock {
    Lock(s.readcnt, s.mutex, s.w, seq(|s.threads|, i requires 0 <= i < |s.threads| => s.threads[i].at))
  }

  function Target(s: State, t: Thread): Point {
    if t.at != Rest then Onward(s.readcnt, t.at) else if t.Reader? then Increment else Writing
  }

  function Next(t: Thread, to: Point): Thread {
    t.(at := to, sections := if to == Rest && t.sections > 0 then t.sections - 1 else t.sections)
  }

  ghost predicate CanStep(s: State, i: nat) {
    i < |s.threads| && s.threads[i].sections > 0 && Enabled(LockOf(s), i, Target(s, s.threads[i]))
  }

  // One atomic step of thread i.
  ghost function Step(s: State, i: nat): State
    requires CanStep(s, i)
  {
    var to := Target(s, s.threads[i]);
    var l := Move(LockOf(s), i, to);
    State(l.readcnt, l.mutex, l.w, s.threads[i := Next(s.threads[i], to)])
  }

  // Both semaphores at 1 and no thread in a section.
  predicate Initial(s: State) {
    s.readcnt == 0 && s.mutex == 1 && s.w == 1 && forall i :: 0 <= i < |s.threads| ==> s.threads[i].at == Rest
  }

  ghost predicate Reaches(s: State, schedule: seq<nat>, r: State)
    decreases |schedule|
  {
    if schedule == [] then s == r
    else CanStep(s, schedule[0]) && Reaches(Step(s, schedule[0]), schedule[1..], r)
  }

  // Readers do not write, writers do not read, and who is in a section has it still to finish.
  predicate InRole(t: Thread) {
    && (t.Reader? ==> t.at != Writing)
    && (t.Writer? ==> t.at in {Rest, Writing})
    && (t.at != Rest ==> t.sections > 0)
  }

  ghost predicate Inv(s: State) {
    Locking(LockOf(s)) && forall i :: 0 <= i < |s.threads| ==> InRole(s.threads[i])
  }

  lemma StepInv(s: State, i: nat)
    requires Inv(s) && CanStep(s, i)
    ensures Inv(Step(s, i)) && LockOf(Step(s, i)) == Move(LockOf(s), i, Target(s, s.threads[i]))
  {
    MoveLocking(LockOf(s), i, Target(s, s.threads[i]));
    assert LockOf(Step(s, i)).points == LockOf(s).points[i := Target(s, s.threads[i])];
  }

  lemma {:induction false} ReachableInv(s: State, schedule: seq<nat>, r: State)
    requires Inv(s) && Reaches(s, schedule, r)
    ensures Inv(r)
    decreases |schedule|
  {
    if schedule != [] {
      StepInv(s, schedule[0]);
      ReachableInv(Step(s, schedule[0]), schedule[1..], r);
    }
  }

  // In every reachable state read_cnt counts the readers, and a writer in its section is alone.
  lemma {:induction false} LockIsSafe(s: State, schedule: seq<nat>, r: State)
    requires Initial(s) && Reaches(s, schedule, r)
    ensures r.readcnt == Total(LockOf(r).points, Counted)
    ensures forall i, j :: 0 <= i < |r.threads| && 0 <= j < |r.threads| && i != j && r.threads[i].at == Writing ==>
              r.threads[j].at !in {EnterV, Reading, Decrement, TestLast, LastV, Writing}
  {
    FreeLock(LockOf(s));
    ReachableInv(s, schedule, r);
    ReadersCounted(LockOf(r));
    forall i, j | 0 <= i < |r.threads| && 0 <= j < |r.threads| && i != j && r.threads[i].at == Writing
      ensures r.threads[j].at !in {EnterV, Reading, Decrement, TestLast, LastV, Writing}
    {
      WriterExcludes(LockOf(r), i, j);
    }
  }

  predicate Finished(s: State) { forall i :: 0 <= i < |s.threads| ==> s.threads[i].sections == 0 }

  ghost predicate Stuck(s: State) { forall i: nat :: !CanStep(s, i) }

  // No reachable state deadlocks, even when a reader waits for w while it holds mutex: as long as a
  // section is left, some thread can move.
  lemma Progress(s: State) returns (i: nat)
    requires Inv(s) && !Finished(s)
    ensures CanStep(s, i)
  {
    i :| 0 <= i < |s.threads| && s.threads[i].sections != 0;
    if k :| 0 <= k < |s.threads| && s.threads[k].at != Rest {
      var to;
      i, to := SomeoneCanMove(LockOf(s), k);
      assert InRole(s.threads[i]);
    } else {
      FreeLock(LockOf(s));
    }
  }

  function Rank(p: Point): nat {
    match p
    case Rest => 0
    case Increment => 1
    case TestFirst => 2
    case FirstP => 3
    case EnterV => 4
    case Reading => 5
    case Decrement => 6
    case TestLast => 7
    case LastV => 8
    case LeaveV => 9
    case Writing => 1
  }

  // The most steps a thread can still take: ten for each section of a reader, two for a writer's.
  function Work(t: Thread): int { (if t.Reader? then 10 else 2) * t.sections - Rank(t.at) }

  lemma StepWork(s: State, i: nat)
    requires Inv(s) && CanStep(s, i)
    ensures Total(Step(s, i).threads, Work) < Total(s.threads, Work)
  {
    var t := s.threads[i];
    assert InRole(t);
    assert Work(Next(t, Target(s, t))) < Work(t);
    TotalUpdate(s.threads, i, Next(t, Target(s, t)), Work);
  }

  lemma {:induction false} RunWork(s: State, schedule: seq<nat>, r: State)
    requires Inv(s) && Reaches(s, schedule, r)
    ensures |schedule| <= Total(s.threads, Work) - Total(r.threads, Work)
    decreases |schedule|
  {
    if schedule != [] {
      StepWork(s, schedule[0]);
      StepInv(s, schedule[0]);
      RunWork(Step(s, schedule[0]), schedule[1..], r);
    }
  }

  lemma {:induction false} WorkLeft(ts: seq<Thread>)
    requires forall i :: 0 <= i < |ts| ==> InRole(ts[i])
    ensures Total(ts, Work) >= 0
  {
    if ts != [] {
      WorkLeft(ts[1..]);
    }
  }

  lemma FinishedIsFree(r: State)
    requires Inv(r) && Finished(r)
    ensures r.mutex == 1 && r.w == 1 && r.readcnt == 0 && Stuck(r)
  {
    FreeLock(LockOf(r));
  }

  // Every run is bounded by the sections to be entered, can be extended until all of them have been,
  // and then leaves the lock free.
  lemma {:induction false} EveryMaximalRunCompletes(s: State, schedule: seq<nat>, r: State)
    requires Initial(s) && Reaches(s, schedule, r)
    ensures |schedule| <= Total(s.threads, Work)
    ensures Stuck(r) <==> Finished(r)
    ensures Finished(r) ==> r.mutex == 1 && r.w == 1 && r.readcnt == 0
  {
    FreeLock(LockOf(s));
    ReachableInv(s, schedule, r);
    RunWork(s, schedule, r);
    WorkLeft(r.threads);
    if Finished(r) {
      FinishedIsFree(r);
    } else {
      var i := Progress(r);
    }
  }

  lemma {:induction false} OneMoreStep(s: State, schedule: seq<nat>, r: State, i: nat)
    requires Reaches(s, schedule, r) && CanStep(r, i)
    ensures Reaches(s, schedule + [i], Step(r, i))
    decreases |schedule|
  {
    if schedule == [] {
      assert [i][1..] == [];
    } else {
      OneMoreStep(Step(s, schedule[0]), schedule[1..], r, i);
      assert (schedule + [i])[1..] == schedule[1..] + [i];
    }
  }

  // ---- readers go first: a writer may wait through any number of sections of two readers ----

  // A run in all of whose states w is taken.
  ghost predicate Waits(s: State, schedule: seq<nat>, r: State)
    decreases |schedule|
  {
    && s.w == 0
    && if schedule == [] then s == r
       else CanStep(s, schedule[0]) && Waits(Step(s, schedule[0]), schedule[1..], r)
  }

  lemma {:induction false} WaitsInParts(s: State, first: seq<nat>, m: State, second: seq<nat>, r: State)
    requires Waits(s, first, m) && Waits(m, second, r)
    ensures Waits(s, first + second, r)
    decreases |first|
  {
    if first == [] {
      assert first + second == second;
    } else {
      WaitsInParts(Step(s, first[0]), first[1..], m, second, r);
      assert (first + second)[1..] == first[1..] + second;
    }
  }

  ghost predicate OthersUnchanged(s: State, r: State, i: nat) {
    |r.threads| == |s.threads| && forall j :: 0 <= j < |s.threads| && j != i ==> r.threads[j] == s.threads[j]
  }

  // Reader i is on its way in, and no one else is in motion.
  ghost predicate Joining(s: State, i: nat) {
    && i < |s.threads| && s.threads[i].Reader? && s.threads[i].sections > 0
    && var p := s.threads[i].at;
    && p in {Rest, Increment, TestFirst, FirstP, EnterV, Reading}
    && s.mutex + InMutex(p) == 1
    && Counted(p) <= s.readcnt
    && (if s.readcnt == Counted(p) then s.w + Inside(p) == 1 else s.w == 0 && p != FirstP)
  }

  lemma {:induction false} JoinAlone(s: State, i: nat) returns (schedule: seq<nat>, r: State)
    requires Joining(s, i)
    ensures Reaches(s, schedule, r) && (s.w == 0 ==> Waits(s, schedule, r)) && OthersUnchanged(s, r, i)
    ensures Joining(r, i) && r.threads[i] == s.threads[i].(at := Reading)
    ensures r.readcnt - 1 == s.readcnt - Counted(s.threads[i].at)
    decreases 10 - Rank(s.threads[i].at)
  {
    if s.threads[i].at == Reading {
      schedule, r := [], s;
    } else {
      schedule, r := JoinAlone(Step(s, i), i);
      assert ([i] + schedule)[1..] == schedule;
      schedule := [i] + schedule;
    }
  }

  // Reader i is on its way out while another is inside, and no one else is in motion.
  ghost predicate Parting(s: State, i: nat, sections: nat) {
    && i < |s.threads| && s.threads[i].Reader?
    && var p := s.threads[i].at;
    && p in {Rest, Reading, Decrement, TestLast, LeaveV}
    && s.threads[i].sections == (if p == Rest then sections else sections + 1)
    && s.mutex + InMutex(p) == 1 && s.w == 0 && Counted(p) < s.readcnt
  }

  lemma {:induction false} PartAlone(s: State, i: nat, sections: nat) returns (schedule: seq<nat>, r: State)
    requires Parting(s, i, sections) && s.threads[i].at != Rest
    ensures Waits(s, schedule, r) && OthersUnchanged(s, r, i) && schedule != []
    ensures r.threads[i] == Reader(Rest, sections) && r.mutex == 1 && r.w == 0
    ensures r.readcnt == s.readcnt - Counted(s.threads[i].at)
    decreases 10 - Rank(s.threads[i].at)
  {
    var m := Step(s, i);
    if m.threads[i].at == Rest {
      schedule, r := [], m;
    } else {
      schedule, r := PartAlone(m, i, sections);
    }
    assert ([i] + schedule)[1..] == schedule;
    schedule := [i] + schedule;
  }

  // Reader a is in its section alone and b is at rest; both have more than n sections to go.
  ghost predicate Overlapping(s: State, a: nat, b: nat, n: nat) {
    && a < |s.threads| && b < |s.threads| && a != b && s.mutex == 1 && s.w == 0 && s.readcnt == 1
    && s.threads[a].Reader? && s.threads[a].at == Reading && s.threads[a].sections > n
    && s.threads[b].Reader? && s.threads[b].at == Rest && s.threads[b].sections > n
  }

  // b comes in before a goes out.
  lemma {:induction false} TakeTurns(s: State, a: nat, b: nat, n: nat) returns (schedule: seq<nat>, r: State)
    requires Overlapping(s, a, b, n) && n > 0
    ensures Waits(s, schedule, r) && schedule != [] && Overlapping(r, b, a, n - 1) && |r.threads| == |s.threads|
    ensures r.threads[a].sections == s.threads[a].sections - 1 && r.threads[b].sections == s.threads[b].sections
    ensures forall j :: 0 <= j < |s.threads| && j != a && j != b ==> r.threads[j] == s.threads[j]
  {
    var first, m := JoinAlone(s, b);
    var second, r' := PartAlone(m, a, s.threads[a].sections - 1);
    WaitsInParts(s, first, m, second, r');
    schedule, r := first + second, r';
  }

  lemma {:induction false} ReadersKeepW(s: State, a: nat, b: nat, n: nat) returns (schedule: seq<nat>, r: State)
    requires Overlapping(s, a, b, n)
    ensures Waits(s, schedule, r) && |schedule| >= n && |r.threads| == |s.threads|
    ensures r.threads[a].sections + r.threads[b].sections == s.threads[a].sections + s.threads[b].sections - n
    ensures forall j :: 0 <= j < |s.threads| && j != a && j != b ==> r.threads[j] == s.threads[j]
    decreases n
  {
    if n == 0 {
      schedule, r := [], s;
    } else {
      var first, m := TakeTurns(s, a, b, n);
      var second, r' := ReadersKeepW(m, b, a, n - 1);
      WaitsInParts(s, first, m, second, r');
      schedule, r := first + second, r';
    }
  }

  // For every n there is a run in which the two readers finish n sections and w is never free
  // meanwhile: no writer can begin.
  lemma {:induction false} WritersCanStarve(s: State, a: nat, b: nat, n: nat)
      returns (enter: seq<nat>, m: State, schedule: seq<nat>, r: State)
    requires Initial(s) && a < |s.threads| && b < |s.threads| && a != b
    requires s.threads[a].Reader? && s.threads[a].sections > n && s.threads[b].Reader? && s.threads[b].sections > n
    ensures Reaches(s, enter, m) && Waits(m, schedule, r) && |schedule| >= n
    ensures |r.threads| == |s.threads|
    ensures r.threads[a].sections + r.threads[b].sections == s.threads[a].sections + s.threads[b].sections - n
    ensures forall j :: 0 <= j < |s.threads| && s.threads[j].Writer? ==> r.threads[j] == s.threads[j]
  {
    enter, m := JoinAlone(s, a);
    assert m.threads[b] == s.threads[b];
    schedule, r := ReadersKeepW(m, a, b, n);
    forall j | 0 <= j < |s.threads| && s.threads[j].Writer? ensures r.threads[j] == s.threads[j] {
      assert m.threads[j] == s.threads[j];
    }
  }

  // The program's own form: the shared variables, changed in place one step at a time.
  class Shared {
    var readcnt: int
    var mutex: nat
    var w: nat
    var threads: seq<Thread>

    ghost function Current(): State
      reads this
    {
      State(readcnt, mutex, w, threads)
    }

    constructor (threads: seq<Thread>)
      requires forall i :: 0 <= i < |threads| ==> threads[i].at == Rest
      ensures Initial(Current()) && this.threads == threads
    {
      readcnt, mutex, w := 0, 1, 1;
      this.threads := threads;
    }

    // Whether thread i has a section ahead of it and is not blocked in a P.
    method AbleToMove(i: nat) returns (able: bool)
      ensures able <==> CanStep(Current(), i)
    {
      able := false;
      if i < |threads| && threads[i].sections > 0 {
        match threads[i].at {
          case Rest => able := if threads[i].Reader? then mutex > 0 else w > 0;
          case FirstP => able := w > 0;
          case Reading => able := mutex > 0;
          case _ => able := true;
        }
      }
    }

    // Let thread i perform its next line of reader or writer.
    method Advance(i: nat)
      requires CanStep(Current(), i)
      modifies this
      ensures Current() == Step(old(Current()), i)
    {
      var t := threads[i];
      match t.at {
        case Rest =>
          if t.Reader? {
            mutex := mutex - 1;
            threads := threads[i := t.(at := Increment)];
          } else {
            w := w - 1;
            threads := threads[i := t.(at := Writing)];
          }
        case Increment =>
          readcnt := readcnt + 1;
          threads := threads[i := t.(at := TestFirst)];
        case TestFirst =>
          threads := threads[i := t.(at := if readcnt == 1 then FirstP else EnterV)];
        case FirstP =>
          w := w - 1;
          threads := threads[i := t.(at := EnterV)];
        case EnterV =>
          mutex := mutex + 1;
          threads := threads[i := t.(at := Reading)];
        case Reading =>
          mutex := mutex - 1;
          threads := threads[i := t.(at := Decrement)];
        case Decrement =>
          readcnt := readcnt - 1;
          threads := threads[i := t.(at := TestLast)];
        case TestLast =>
          threads := threads[i := t.(at := if readcnt == 0 then LastV else LeaveV)];
        case LastV =>
          w := w + 1;
          threads := threads[i := t.(at := LeaveV)];
        case LeaveV =>
          mutex := mutex + 1;
          threads := threads[i := t.(at := Rest, sections := t.sections - 1)];
        case Writing =>
          w := w + 1;
          threads := threads[i := t.(at := Rest, sections := t.sections - 1)];
      }
    }

    // Follow a schedule until it ends or names a thread that cannot move.
    method Run(schedule: seq<nat>) returns (steps: nat)
      modifies this
      ensures steps <= |schedule| && Reaches(old(Current()), schedule[..steps], Current())
      ensures steps < |schedule| ==> !CanStep(Current(), schedule[steps])
    {
      steps := 0;
      while steps < |schedule|
        invariant steps <= |schedule| && Reaches(old(Current()), schedule[..steps], Current())
      {
        var i := schedule[steps];
        var able := AbleToMove(i);
        if !able {
          return;
        }
        OneMoreStep(old(Current()), schedule[..steps], Current(), i);
        Advance(i);
        assert schedule[..steps + 1] == schedule[..steps] + [i];
        steps := steps + 1;
      }
    }
  }
}
