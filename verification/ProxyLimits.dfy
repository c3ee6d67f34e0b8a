// The limits of the proxy's cache: exactly when it answers from its stores, and exactly when ten slots
// are enough for it.
module ProxyLimits {
  import opened Common
  import opened Counting
  import opened ProxyCache
  import RW = ReadersWriters

  // Only thread i is in the lock.
  ghost predicate AloneInLock(s: State, i: nat) {
    && i < |s.threads| && |s.slots| == CAPACITY
    && var p := Phase(s.threads[i]);
    && p != RW.Writing
    && s.mutex + RW.InMutex(p) == 1 && s.readcnt == RW.Counted(p) && s.w + RW.Holding(p) == 1
  }

  predicate SameRequest(t: Thread, u: Thread) { u.uri == t.uri && u.fetched == t.fetched }

  ghost predicate OthersUnchanged(s: State, r: State, i: nat) {
    |r.threads| == |s.threads| && forall j :: 0 <= j < |s.threads| && j != i ==> r.threads[j] == s.threads[j]
  }

  lemma EnterAlone(s: State, i: nat)
    requires AloneInLock(s, i) && s.threads[i].at in {EnterP, Increment, TestFirst, FirstP, EnterV}
    ensures CanStep(s, i) && AloneInLock(Step(s, i), i)
    ensures Rank(Next(s, s.threads[i]).at) < Rank(s.threads[i].at)
  {
  }

  lemma ReadAlone(s: State, i: nat)
    requires AloneInLock(s, i) && (s.threads[i].at.Scan? || s.threads[i].at.Send?)
    ensures CanStep(s, i) && AloneInLock(Step(s, i), i)
    ensures Rank(Next(s, s.threads[i]).at) < Rank(s.threads[i].at)
  {
  }

  lemma LeaveAlone(s: State, i: nat)
    requires AloneInLock(s, i) && s.threads[i].at in {LeaveP, Decrement, TestLast, LastV, LeaveV}
    ensures CanStep(s, i) && AloneInLock(Step(s, i), i)
    ensures Rank(Next(s, s.threads[i]).at) < Rank(s.threads[i].at)
  {
  }

  // Thread i is on its way to a miss.
  ghost predicate Missing(s: State, i: nat) {
    && AloneInLock(s, i)
    && var t := s.threads[i];
    && (forall k :: 0 <= k < CAPACITY ==> s.slots[k].name != Whole(t.uri))
    && t.fetched.Some? && t.answer.None? && !t.at.Send? && t.at != Done
  }

  lemma MissingStep(s: State, i: nat)
    requires Missing(s, i) && s.threads[i].at != StoreP
    ensures CanStep(s, i) && Missing(Step(s, i), i) && Rank(Next(s, s.threads[i]).at) < Rank(s.threads[i].at)
  {
    if s.threads[i].at in {EnterP, Increment, TestFirst, FirstP, EnterV} {
      EnterAlone(s, i);
    } else if s.threads[i].at.Scan? {
      ReadAlone(s, i);
    } else {
      LeaveAlone(s, i);
    }
  }

  lemma {:induction false} MissAlone(s: State, i: nat) returns (schedule: seq<nat>, r: State)
    requires Missing(s, i)
    ensures Reaches(s, schedule, r) && Missing(r, i) && r.threads[i].at == StoreP && OthersUnchanged(s, r, i)
    ensures r.slots == s.slots && r.used == s.used && SameRequest(s.threads[i], r.threads[i])
    decreases Rank(s.threads[i].at)
  {
    if s.threads[i].at == StoreP {
      schedule, r := [], s;
    } else {
      MissingStep(s, i);
      var s' := Step(s, i);
      schedule, r := MissAlone(s', i);
      assert ([i] + schedule)[1..] == schedule;
      schedule := [i] + schedule;
    }
  }

  // Thread i is on its way to slot k, or an earlier one, that has its uri although nothing was stored.
  ghost predicate Finding(s: State, i: nat, k: nat) {
    && AloneInLock(s, i) && k < CAPACITY && s.used == 0 && s.log == []
    && var t := s.threads[i];
    && s.slots[k].name == Whole(t.uri)
    && (t.at in {EnterP, Increment, TestFirst, FirstP, EnterV, LeaveP} || t.at.Scan? || t.at.Send?)
    && (t.at.Scan? ==> t.at.index <= k)
    && (t.at == LeaveP ==> t.answer.Some? && t.seen == 0)
  }

  lemma FindingStep(s: State, i: nat, k: nat)
    requires Finding(s, i, k) && s.threads[i].at != LeaveP
    ensures CanStep(s, i) && Finding(Step(s, i), i, k) && Rank(Next(s, s.threads[i]).at) < Rank(s.threads[i].at)
  {
    if s.threads[i].at.Scan? || s.threads[i].at.Send? {
      ReadAlone(s, i);
    } else {
      EnterAlone(s, i);
    }
  }

  lemma {:induction false} FindAlone(s: State, i: nat, k: nat) returns (schedule: seq<nat>, r: State)
    requires Finding(s, i, k)
    ensures Reaches(s, schedule, r) && Finding(r, i, k) && r.threads[i].at == LeaveP
    decreases Rank(s.threads[i].at)
  {
    if s.threads[i].at == LeaveP {
      schedule, r := [], s;
    } else {
      FindingStep(s, i, k);
      var s' := Step(s, i);
      schedule, r := FindAlone(s', i, k);
      assert ([i] + schedule)[1..] == schedule;
      schedule := [i] + schedule;
    }
  }

  // Whatever the interleaving, a lookup is answered from the completed stores.
  ghost predicate AnswersRight(s: State) {
    forall schedule: seq<nat>, r: State, i: nat ::
      Reaches(s, schedule, r) && i < |r.threads| && Decided(r.threads[i]) ==>
        r.threads[i].seen <= |r.log| && r.threads[i].answer == AsText(Lookup(r.log[..r.threads[i].seen], r.threads[i].uri))
  }

  lemma WrongAnswer(s: State, i: nat, k: nat)
    requires Initial(s) && i < |s.threads| && k < CAPACITY && s.slots[k].name == Whole(s.threads[i].uri)
    ensures !AnswersRight(s)
  {
    var schedule, r := FindAlone(s, i, k);
    assert Decided(r.threads[i]) && Lookup(r.log[..0], r.threads[i].uri) == None;
  }

  // The cache is the first-write-wins map in every interleaving exactly when none of the texts that the
  // slots happened to hold at first is a requested uri.
  lemma BlankIff(s: State)
    requires Initial(s)
    ensures Blank(s) <==> AnswersRight(s)
  {
    if Blank(s) {
      forall schedule: seq<nat>, r: State, i: nat | Reaches(s, schedule, r) && i < |r.threads| && Decided(r.threads[i])
        ensures r.threads[i].seen <= |r.log|
        ensures r.threads[i].answer == AsText(Lookup(r.log[..r.threads[i].seen], r.threads[i].uri))
      {
        LookupsLinearize(s, schedule, r, i);
      }
    } else {
      var k :| 0 <= k < |s.slots| && !Unnamed(s.slots[k], Uris(s.threads));
      var i :| 0 <= i < |s.threads| && Uris(s.threads)[i] == s.slots[k].name.text;
      WrongAnswer(s, i, k);
    }
  }

  // Thread i alone stores its object into a free slot.
  ghost predicate AloneStoring(s: State, i: nat) {
    && i < |s.threads| && s.readcnt == 0 && s.mutex == 1
    && var t := s.threads[i];
    && (t.at == StoreP || Writing(t) || t.at == Done)
    && (t.at !in {StoreV, Done} ==> s.used < CAPACITY)
    && s.w == (if Writing(t) then 0 else 1)
  }

  lemma StoreAloneStep(s: State, i: nat)
    requires AloneStoring(s, i) && s.threads[i].at != Done
    ensures CanStep(s, i) && AloneStoring(Step(s, i), i)
    ensures Rank(Next(s, s.threads[i]).at) < Rank(s.threads[i].at)
  {
  }

  // What the store of thread i still does to the slots.
  ghost predicate StoresInto(s: State, i: nat, slots: seq<Slot>)
    requires i < |s.threads|
  {
    && |slots| == |s.slots| && (forall k :: 0 <= k < |slots| && k != s.used ==> slots[k] == s.slots[k])
    && var p := s.threads[i].at;
    && (p in {StoreV, Done} ==> slots == s.slots)
    && (p in {ObjectBegin, ObjectEnd, CountStore} && s.used < |slots| ==> slots[s.used].name == s.slots[s.used].name)
    && (p in {StoreP, NameBegin, NameEnd} && s.used < |slots| ==> slots[s.used].name == Whole(s.threads[i].uri))
  }

  lemma StoresIntoStep(s: State, i: nat, slots: seq<Slot>)
    requires AloneStoring(s, i) && s.threads[i].at != Done && CanStep(s, i) && StoresInto(Step(s, i), i, slots)
    ensures StoresInto(s, i, slots)
  {
  }

  lemma {:induction false} StoreAlone(s: State, i: nat) returns (schedule: seq<nat>, r: State)
    requires AloneStoring(s, i)
    ensures Reaches(s, schedule, r) && AloneStoring(r, i) && r.threads[i].at == Done && OthersUnchanged(s, r, i)
    ensures r.used == s.used + (if s.threads[i].at in {StoreV, Done} then 0 else 1)
    ensures StoresInto(s, i, r.slots) && SameRequest(s.threads[i], r.threads[i])
    decreases Rank(s.threads[i].at)
  {
    if s.threads[i].at == Done {
      schedule, r := [], s;
    } else {
      StoreAloneStep(s, i);
      var s' := Step(s, i);
      schedule, r := StoreAlone(s', i);
      StoresIntoStep(s, i, r.slots);
      assert ([i] + schedule)[1..] == schedule;
      schedule := [i] + schedule;
    }
  }

  // ---- when ten slots are enough ----

  ghost predicate NeverOverflows(s: State) {
    forall schedule: seq<nat>, r: State :: Reaches(s, schedule, r) ==> !Overflow(r)
  }

  // A request with something to store that is not in the slots from m on as they were at first.
  predicate CanMiss(memory: seq<Slot>, m: nat, t: Thread) {
    t.fetched.Some? && forall k :: m <= k < |memory| ==> memory[k].name != Whole(t.uri)
  }

  function Missers(memory: seq<Slot>, m: nat): Thread -> int { t => if CanMiss(memory, m, t) then 1 else 0 }

  // After some number of stores no further request can miss.
  ghost predicate Exhausted(s: State, m: nat) { Total(s.threads, Missers(s.slots, m)) <= m }

  // ---- it is then safe ----

  function Pending(memory: seq<Slot>, m: nat): Thread -> int {
    t => if CanMiss(memory, m, t) && t.at !in {StoreV, Done} then 1 else 0
  }

  // What a thread has found out about the slots from m on.
  ghost predicate Compared(memory: seq<Slot>, m: nat, t: Thread) {
    && (t.at.Scan? ==> forall k :: m <= k < |memory| && k < t.at.index ==> memory[k].name != Whole(t.uri))
    && (t.at in {LeaveP, Decrement, TestLast, LastV, LeaveV} && t.answer.None? ==>
          forall k :: m <= k < |memory| ==> memory[k].name != Whole(t.uri))
    && (t.at == StoreP || Writing(t) ==> CanMiss(memory, m, t))
  }

  // At most m stores, so that the slots from m on stay as they were.
  ghost predicate Kept(memory: seq<Slot>, m: nat, s: State) {
    && |s.slots| == CAPACITY == |memory| && m <= CAPACITY
    && s.used + Total(s.threads, Pending(memory, m)) <= m
    && (forall k :: m <= k < CAPACITY ==> s.slots[k] == memory[k])
    && forall i :: 0 <= i < |s.threads| ==> Compared(memory, m, s.threads[i])
  }

  // A thread that can write has room below m.
  lemma RoomBelow(memory: seq<Slot>, m: nat, s: State, i: nat)
    requires Kept(memory, m, s) && i < |s.threads|
    requires s.threads[i].at in {StoreP, NameBegin, NameEnd, ObjectBegin, ObjectEnd, CountStore}
    ensures s.used < m
  {
    assert Compared(memory, m, s.threads[i]);
    TotalAtLeast(s.threads, i, Pending(memory, m));
  }

  lemma StepCompared(memory: seq<Slot>, m: nat, s: State, i: nat)
    requires Kept(memory, m, s) && CanStep(s, i)
    ensures Compared(memory, m, Next(s, s.threads[i]))
  {
    assert Compared(memory, m, s.threads[i]);
  }

  lemma PendingStep(memory: seq<Slot>, m: nat, s: State, i: nat)
    requires CanStep(s, i) && Compared(memory, m, s.threads[i])
    ensures Pending(memory, m)(Next(s, s.threads[i]))
      <= Pending(memory, m)(s.threads[i]) - if s.threads[i].at == CountStore then 1 else 0
  {
  }

  lemma StepKept(memory: seq<Slot>, m: nat, s: State, i: nat)
    requires Kept(memory, m, s) && CanStep(s, i)
    ensures Kept(memory, m, Step(s, i))
  {
    var t := s.threads[i];
    assert Compared(memory, m, t);
    PendingStep(memory, m, s, i);
    TotalUpdate(s.threads, i, Next(s, t), Pending(memory, m));
    StepCompared(memory, m, s, i);
    if t.at in {StoreP, NameBegin, NameEnd, ObjectBegin, ObjectEnd, CountStore} {
      RoomBelow(memory, m, s, i);
    }
  }

  lemma {:induction false} RunKept(memory: seq<Slot>, m: nat, s: State, schedule: seq<nat>, r: State)
    requires Kept(memory, m, s) && Reaches(s, schedule, r)
    ensures Kept(memory, m, r)
    decreases |schedule|
  {
    if schedule != [] {
      StepKept(memory, m, s, schedule[0]);
      RunKept(memory, m, Step(s, schedule[0]), schedule[1..], r);
    }
  }

  lemma {:induction false} InitialPending(ts: seq<Thread>, memory: seq<Slot>, m: nat)
    requires forall i :: 0 <= i < |ts| ==> ts[i].at == EnterP
    ensures Total(ts, Pending(memory, m)) == Total(ts, Missers(memory, m))
  {
    if ts != [] {
      InitialPending(ts[1..], memory, m);
    }
  }

  lemma ExhaustedIsSafe(s: State, m: nat, schedule: seq<nat>, r: State)
    requires Initial(s) && m <= CAPACITY && Exhausted(s, m) && Reaches(s, schedule, r)
    ensures !Overflow(r)
  {
    InitialPending(s.threads, s.slots, m);
    RunKept(s.slots, m, s, schedule, r);
    forall i | 0 <= i < |r.threads| && r.threads[i].at == NameBegin ensures r.used < CAPACITY {
      RoomBelow(s.slots, m, r, i);
    }
  }

  // ---- and only then: let all that can miss look up, store one, and again ----

  function Stored(t: Thread): int { if t.at == Done then 1 else 0 }

  // A thread after m stores: it has looked up in vain and waits to store, or has stored, if it could
  // miss; the others have not begun.
  ghost predicate Placed(memory: seq<Slot>, m: nat, looked: bool, t: Thread) {
    && t.at in {EnterP, StoreP, Done}
    && (t.at == EnterP ==> t.answer.None? && (m > 0 ==> !CanMiss(memory, m - 1, t)) && (looked ==> !CanMiss(memory, m, t)))
    && (t.at != EnterP ==> CanMiss(memory, m, t))
  }

  ghost predicate AllPlaced(memory: seq<Slot>, m: nat, n: nat, ts: seq<Thread>) {
    forall i :: 0 <= i < |ts| ==> Placed(memory, m, i < n, ts[i])
  }

  // m slots have names that were not in memory from them on; the others are as they were.
  ghost predicate Overwritten(slots: seq<Slot>, memory: seq<Slot>, m: nat) {
    && |slots| == CAPACITY == |memory| && m <= CAPACITY
    && (forall k :: m <= k < CAPACITY ==> slots[k] == memory[k])
    && (forall k, j :: 0 <= k < m && k <= j < CAPACITY ==> slots[k].name != memory[j].name)
  }

  // m stores done, nobody in the lock, and the first n threads have tried their lookup since.
  ghost predicate AtStage(s: State, memory: seq<Slot>, m: nat, n: nat) {
    && Overwritten(s.slots, memory, m) && AllPlaced(memory, m, n, s.threads)
    && s.used == m && n <= |s.threads|
    && s.mutex == 1 && s.w == 1 && s.readcnt == 0
    && Total(s.threads, Stored) == m
  }

  // No name in the slots is the uri of a thread that can miss only now.
  lemma MissesNow(slots: seq<Slot>, memory: seq<Slot>, m: nat, t: Thread)
    requires Overwritten(slots, memory, m) && CanMiss(memory, m, t) && (m > 0 ==> !CanMiss(memory, m - 1, t))
    ensures forall k :: 0 <= k < CAPACITY ==> slots[k].name != Whole(t.uri)
  {
    if m > 0 {
      assert memory[m - 1].name == Whole(t.uri);
    }
    forall k | 0 <= k < CAPACITY ensures slots[k].name != Whole(t.uri) {
      if k < m {
        assert slots[k].name != memory[m - 1].name;
      }
    }
  }

  lemma OneMoreOverwritten(slots: seq<Slot>, memory: seq<Slot>, m: nat, t: Thread, slots': seq<Slot>)
    requires Overwritten(slots, memory, m) && m < CAPACITY == |slots'| && CanMiss(memory, m, t)
    requires slots'[m].name == Whole(t.uri) && forall k :: 0 <= k < CAPACITY && k != m ==> slots'[k] == slots[k]
    ensures Overwritten(slots', memory, m + 1)
  {
  }

  lemma PlaceOne(memory: seq<Slot>, m: nat, n: nat, ts: seq<Thread>, us: seq<Thread>)
    requires AllPlaced(memory, m, n, ts) && n < |ts| == |us| && Placed(memory, m, true, us[n])
    requires forall j :: 0 <= j < |ts| && j != n ==> us[j] == ts[j]
    ensures AllPlaced(memory, m, n + 1, us)
  {
    forall i | 0 <= i < |us| ensures Placed(memory, m, i < n + 1, us[i]) {
      assert Placed(memory, m, i < n, ts[i]);
    }
  }

  lemma PlaceNext(memory: seq<Slot>, m: nat, i: nat, ts: seq<Thread>, us: seq<Thread>)
    requires AllPlaced(memory, m, |ts|, ts) && i < |ts| == |us| && m < |memory|
    requires CanMiss(memory, m, us[i]) && us[i].at == Done && forall j :: 0 <= j < |ts| && j != i ==> us[j] == ts[j]
    ensures AllPlaced(memory, m + 1, 0, us)
  {
    forall j | 0 <= j < |us| ensures Placed(memory, m + 1, false, us[j]) {
      assert Placed(memory, m, true, ts[j]);
    }
  }

  lemma ReplaceThread(s: State, r: State, i: nat, f: Thread -> int)
    requires i < |s.threads| && OthersUnchanged(s, r, i)
    ensures Total(r.threads, f) == Total(s.threads, f) - f(s.threads[i]) + f(r.threads[i])
  {
    assert r.threads == s.threads[i := r.threads[i]];
    TotalUpdate(s.threads, i, r.threads[i], f);
  }

  // The same requests as in s.
  ghost predicate Requests(s: State, r: State) {
    |r.threads| == |s.threads| && forall i :: 0 <= i < |s.threads| ==> SameRequest(s.threads[i], r.threads[i])
  }

  lemma OneMoreLookup(s: State, memory: seq<Slot>, m: nat, n: nat) returns (schedule: seq<nat>, r: State)
    requires AtStage(s, memory, m, n) && n < |s.threads|
    ensures Reaches(s, schedule, r) && AtStage(r, memory, m, n + 1) && |r.threads| == |s.threads|
  {
    var t := s.threads[n];
    assert Placed(memory, m, false, t);
    if t.at == EnterP && CanMiss(memory, m, t) {
      MissesNow(s.slots, memory, m, t);
      schedule, r := MissAlone(s, n);
      ReplaceThread(s, r, n, Stored);
    } else {
      schedule, r := [], s;
    }
    PlaceOne(memory, m, n, s.threads, r.threads);
  }

  lemma {:induction false} AllLookups(s: State, memory: seq<Slot>, m: nat, n: nat) returns (schedule: seq<nat>, r: State)
    requires AtStage(s, memory, m, 0) && n <= |s.threads|
    ensures Reaches(s, schedule, r) && AtStage(r, memory, m, n) && |r.threads| == |s.threads|
  {
    if n == 0 {
      schedule, r := [], s;
    } else {
      var first, q := AllLookups(s, memory, m, n - 1);
      var more, last := OneMoreLookup(q, memory, m, n - 1);
      ReachesInParts(s, first, q, more, last);
      schedule, r := first + more, last;
    }
  }

  // With more than m requests that can miss, one of them waits to store.
  lemma SomeWaits(s: State, memory: seq<Slot>, m: nat) returns (i: nat)
    requires AtStage(s, memory, m, |s.threads|) && Total(s.threads, Missers(memory, m)) > m
    ensures i < |s.threads| && s.threads[i].at == StoreP && CanMiss(memory, m, s.threads[i])
  {
    i := SomeLarger(s.threads, Missers(memory, m), Stored);
    assert Placed(memory, m, true, s.threads[i]);
  }

  lemma OneMoreStore(s: State, memory: seq<Slot>, m: nat, i: nat) returns (schedule: seq<nat>, r: State)
    requires AtStage(s, memory, m, |s.threads|) && m < CAPACITY
    requires i < |s.threads| && s.threads[i].at == StoreP && CanMiss(memory, m, s.threads[i])
    ensures Reaches(s, schedule, r) && AtStage(r, memory, m + 1, 0)
  {
    schedule, r := StoreAlone(s, i);
    ReplaceThread(s, r, i, Stored);
    OneMoreOverwritten(s.slots, memory, m, s.threads[i], r.slots);
    PlaceNext(memory, m, i, s.threads, r.threads);
  }

  lemma {:induction false} SameMissers(ts: seq<Thread>, us: seq<Thread>, memory: seq<Slot>, m: nat)
    requires |ts| == |us| && forall i :: 0 <= i < |ts| ==> SameRequest(ts[i], us[i])
    ensures Total(us, Missers(memory, m)) == Total(ts, Missers(memory, m))
  {
    if ts != [] {
      SameMissers(ts[1..], us[1..], memory, m);
    }
  }

  // From every number of stores on there are more requests that can miss than stores.
  ghost predicate AlwaysOneMore(ts: seq<Thread>, memory: seq<Slot>, m: nat) {
    forall k :: m <= k <= CAPACITY ==> Total(ts, Missers(memory, k)) > k
  }

  lemma StillOneMore(s: State, r: State, memory: seq<Slot>, m: nat, n: nat)
    requires Requests(s, r) && AlwaysOneMore(s.threads, memory, m) && m <= n
    ensures AlwaysOneMore(r.threads, memory, n)
  {
    forall k | n <= k <= CAPACITY ensures Total(r.threads, Missers(memory, k)) > k {
      SameMissers(s.threads, r.threads, memory, k);
    }
  }

  lemma StandsAtEnd(s: State, memory: seq<Slot>, i: nat) returns (schedule: seq<nat>, r: State)
    requires AtStage(s, memory, CAPACITY, |s.threads|) && i < |s.threads| && s.threads[i].at == StoreP
    ensures Reaches(s, schedule, r) && Overflow(r)
  {
    schedule, r := [i], Step(s, i);
    assert schedule[1..] == [] && r.threads[i].at == NameBegin;
  }

  lemma {:induction false} SameRequests(s: State, schedule: seq<nat>, r: State)
    requires Reaches(s, schedule, r)
    ensures Requests(s, r)
    decreases |schedule|
  {
    if schedule != [] {
      SameRequests(Step(s, schedule[0]), schedule[1..], r);
    }
  }

  // All lookups that miss, and then one store.
  lemma OneStage(s: State, memory: seq<Slot>, m: nat) returns (schedule: seq<nat>, r: State)
    requires AtStage(s, memory, m, 0) && m <= CAPACITY && AlwaysOneMore(s.threads, memory, m)
    ensures Reaches(s, schedule, r) && Requests(s, r)
    ensures if m == CAPACITY then Overflow(r) else AtStage(r, memory, m + 1, 0)
  {
    var first, q := AllLookups(s, memory, m, |s.threads|);
    SameRequests(s, first, q);
    StillOneMore(s, q, memory, m, m);
    var i := SomeWaits(q, memory, m);
    var second;
    if m == CAPACITY {
      second, r := StandsAtEnd(q, memory, i);
    } else {
      second, r := OneMoreStore(q, memory, m, i);
    }
    ReachesInParts(s, first, q, second, r);
    schedule := first + second;
    SameRequests(s, schedule, r);
  }

  lemma {:induction false} StoreUntilOverflow(s: State, memory: seq<Slot>, m: nat) returns (schedule: seq<nat>, r: State)
    requires AtStage(s, memory, m, 0) && m <= CAPACITY && AlwaysOneMore(s.threads, memory, m)
    ensures Reaches(s, schedule, r) && Overflow(r)
    decreases CAPACITY - m
  {
    schedule, r := OneStage(s, memory, m);
    if m < CAPACITY {
      StillOneMore(s, r, memory, m, m + 1);
      var more, last := StoreUntilOverflow(r, memory, m + 1);
      ReachesInParts(s, schedule, r, more, last);
      schedule, r := schedule + more, last;
    }
  }

  lemma SomeOverflow(s: State) returns (schedule: seq<nat>, r: State)
    requires Initial(s) && forall m :: 0 <= m <= CAPACITY ==> !Exhausted(s, m)
    ensures Reaches(s, schedule, r) && Overflow(r)
  {
    TotalZero(s.threads, Stored);
    forall m | 0 <= m <= CAPACITY ensures Total(s.threads, Missers(s.slots, m)) > m {
      assert !Exhausted(s, m);
    }
    schedule, r := StoreUntilOverflow(s, s.slots, 0);
  }

  // No interleaving writes past the tenth slot if and only if, for some m up to ten, at most m requests
  // could miss a cache whose first m slots hold other uris.
  lemma OverflowIff(s: State)
    requires Initial(s)
    ensures NeverOverflows(s) <==> exists m :: 0 <= m <= CAPACITY && Exhausted(s, m)
  {
    if m :| 0 <= m <= CAPACITY && Exhausted(s, m) {
      forall schedule: seq<nat>, r: State | Reaches(s, schedule, r) ensures !Overflow(r) {
        ExhaustedIsSafe(s, m, schedule, r);
      }
    } else {
      var schedule, r := SomeOverflow(s);
      assert Reaches(s, schedule, r);
    }
  }

  function Cacheable(t: Thread): int { if t.fetched.Some? then 1 else 0 }

  lemma {:induction false} BlankMissers(ts: seq<Thread>, memory: seq<Slot>, m: nat)
    requires forall i, k :: 0 <= i < |ts| && 0 <= k < |memory| ==> memory[k].name != Whole(ts[i].uri)
    ensures Total(ts, Missers(memory, m)) == Total(ts, Cacheable)
  {
    if ts != [] {
      BlankMissers(ts[1..], memory, m);
    }
  }

  // With no requested uri in the slots at first that is when at most ten responses can be cached.
  lemma BlankOverflowIff(s: State)
    requires Initial(s) && Blank(s)
    ensures NeverOverflows(s) <==> Total(s.threads, Cacheable) <= 10
  {
    OverflowIff(s);
    forall i, k | 0 <= i < |s.threads| && 0 <= k < |s.slots| ensures s.slots[k].name != Whole(s.threads[i].uri) {
      assert Unnamed(s.slots[k], Uris(s.threads)) && Uris(s.threads)[i] == s.threads[i].uri;
    }
    forall m | 0 <= m <= CAPACITY ensures Exhausted(s, m) <==> Total(s.threads, Cacheable) <= m {
      BlankMissers(s.threads, s.slots, m);
    }
    assert Exhausted(s, CAPACITY) <==> Total(s.threads, Cacheable) <= CAPACITY;
  }

  // With so few responses to store every run that cannot go on has served all requests.
  lemma AllServed(s: State, schedule: seq<nat>, r: State)
    requires Initial(s) && NeverOverflows(s) && Reaches(s, schedule, r)
    ensures Stuck(r) <==> Finished(r)
  {
    EveryMaximalRunCompletes(s, schedule, r);
  }
}
