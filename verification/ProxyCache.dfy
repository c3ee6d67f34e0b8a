// The proxy's shared cache behind its readers-writers lock, for any number of requests and every
// interleaving of their single steps.
module ProxyCache {
  import opened Common
  import opened Counting
  import RW = ReadersWriters

  const CAPACITY := 10

  // A C string in memory: while strcpy is writing it, its contents are torn.
  datatype Text = Torn | Whole(text: string)

  datatype Slot = Slot(name: Text, body: Text)

  // A completed store.
  datatype Entry = Entry(uri: string, body: string)

  // The lines of reader and writer that touch shared state, in program order.
  datatype Point =
    | EnterP                  // P(&mutex)
    | Increment               // readcnt++
    | TestFirst               // readcnt == 1 ?
    | FirstP                  // P(&w)
    | EnterV                  // V(&mutex)
    | Scan(index: nat)        // strcmp with the name of one slot
    | Send(index: nat)        // Rio_writen of the object of that slot
    | LeaveP                  // P(&mutex)
    | Decrement               // readcnt--
    | TestLast                // readcnt == 0 ?
    | LastV                   // V(&w)
    | LeaveV                  // V(&mutex)
    | StoreP                  // P(&w)
    | NameBegin | NameEnd     // strcpy of the name
    | ObjectBegin | ObjectEnd // strcpy of the object
    | CountStore              // ++cache.used_cnt
    | StoreV                  // V(&w)
    | Done

  // One doit: look the uri up and, on a miss, store what the server sent if it was small enough.
  // since and seen are the numbers of completed stores when the lookup began and was decided.
  datatype Thread = Thread(uri: string, fetched: Option<string>, at: Point,
                           answer: Option<Text>, since: nat, seen: nat)
  {
    function Object(): string { if fetched.Some? then fetched.value else "" }
  }

  datatype State = State(slots: seq<Slot>, used: nat, readcnt: int, mutex: nat, w: nat,
                         threads: seq<Thread>, log: seq<Entry>)
  {
    function SlotAt(k: nat): Slot { if k < |slots| then slots[k] else Slot(Torn, Torn) }

    function SetSlot(slot: Slot): seq<Slot> { if used < |slots| then slots[used := slot] else slots }
  }

  // An eleventh store would write past the array, so it has no defined step.
  predicate CanStep(s: State, i: nat) {
    && i < |s.threads|
    && match s.threads[i].at
       case EnterP | LeaveP => s.mutex > 0
       case FirstP | StoreP => s.w > 0
       case NameBegin => s.used < CAPACITY
       case Done => false
       case _ => true
  }

  function Next(s: State, t: Thread): Thread {
    match t.at
    case EnterP => t.(at := Increment, since := s.used)
    case Increment => t.(at := TestFirst)
    case TestFirst => t.(at := if s.readcnt == 1 then FirstP else EnterV)
    case FirstP => t.(at := EnterV)
    case EnterV => t.(at := Scan(0))
    case Scan(k) =>
      if k >= CAPACITY then t.(at := LeaveP, seen := s.used)
      else if s.SlotAt(k).name == Whole(t.uri) then t.(at := Send(k))
      else t.(at := Scan(k + 1))
    case Send(k) => t.(at := LeaveP, seen := s.used, answer := Some(s.SlotAt(k).body))
    case LeaveP => t.(at := Decrement)
    case Decrement => t.(at := TestLast)
    case TestLast => t.(at := if s.readcnt == 0 then LastV else LeaveV)
    case LastV => t.(at := LeaveV)
    case LeaveV => t.(at := if t.answer.Some? || t.fetched.None? then Done else StoreP)
    case StoreP => t.(at := NameBegin)
    case NameBegin => t.(at := NameEnd)
    case NameEnd => t.(at := ObjectBegin)
    case ObjectBegin => t.(at := ObjectEnd)
    case ObjectEnd => t.(at := CountStore)
    case CountStore => t.(at := StoreV)
    case StoreV => t.(at := Done)
    case Done => t
  }

  // One atomic step of thread i.
  function Step(s: State, i: nat): State
    requires CanStep(s, i)
  {
    var t := s.threads[i];
    var r := s.(threads := s.threads[i := Next(s, t)]);
    match t.at
    case EnterP | LeaveP => r.(mutex := s.mutex - 1)
    case EnterV | LeaveV => r.(mutex := s.mutex + 1)
    case FirstP | StoreP => r.(w := s.w - 1)
    case LastV | StoreV => r.(w := s.w + 1)
    case Increment => r.(readcnt := s.readcnt + 1)
    case Decrement => r.(readcnt := s.readcnt - 1)
    case NameBegin => r.(slots := s.SetSlot(s.SlotAt(s.used).(name := Torn)))
    case NameEnd => r.(slots := s.SetSlot(s.SlotAt(s.used).(name := Whole(t.uri))))
    case ObjectBegin => r.(slots := s.SetSlot(s.SlotAt(s.used).(body := Torn)))
    case ObjectEnd => r.(slots := s.SetSlot(s.SlotAt(s.used).(body := Whole(t.Object()))))
    case CountStore => r.(used := s.used + 1, log := s.log + [Entry(t.uri, t.Object())])
    case _ => r
  }

  // After init_cache, with no request served yet. The slots have just been allocated: their texts are
  // whatever the memory held.
  predicate Initial(s: State) {
    && |s.slots| == CAPACITY && s.used == 0 && s.log == []
    && s.readcnt == 0 && s.mutex == 1 && s.w == 1
    && (forall k :: 0 <= k < |s.slots| ==> s.slots[k].name.Whole? && s.slots[k].body.Whole?)
    && (forall i :: 0 <= i < |s.threads| ==> s.threads[i].at == EnterP && s.threads[i].answer.None?)
  }

  ghost predicate Reaches(s: State, schedule: seq<nat>, r: State)
    decreases |schedule|
  {
    if schedule == [] then s == r
    else CanStep(s, schedule[0]) && Reaches(Step(s, schedule[0]), schedule[1..], r)
  }

  // Where a thread stands in the lock: a request reads once and then may write once.
  function PhaseOf(p: Point): RW.Point {
    match p
    case EnterP | StoreP | Done => RW.Rest
    case Increment => RW.Increment
    case TestFirst => RW.TestFirst
    case FirstP => RW.FirstP
    case EnterV => RW.EnterV
    case Scan(_) => RW.Reading
    case Send(_) => RW.Reading
    case LeaveP => RW.Reading
    case Decrement => RW.Decrement
    case TestLast => RW.TestLast
    case LastV => RW.LastV
    case LeaveV => RW.LeaveV
    case NameBegin | NameEnd | ObjectBegin | ObjectEnd | CountStore | StoreV => RW.Writing
  }

  function Phase(t: Thread): RW.Point { PhaseOf(t.at) }

  predicate Writing(t: Thread) { Phase(t) == RW.Writing }

  // The proxy's lock as a state of the readers-writers lock.
  ghost function LockOf(s: State): RW.Lock { RW.Lock(s.readcnt, s.mutex, s.w, Phases(s.threads)) }

  ghost function Phases(ts: seq<Thread>): seq<RW.Point> {
    seq(|ts|, i requires 0 <= i < |ts| => Phase(ts[i]))
  }

  lemma PhasesUpdate(ts: seq<Thread>, i: nat, t: Thread)
    requires i < |ts|
    ensures Phases(ts[i := t]) == Phases(ts)[i := Phase(t)]
  {
  }

  // Every step of the proxy is a move of the lock, or leaves the lock as it is.
  lemma StepRefinesLock(s: State, i: nat)
    requires CanStep(s, i)
    ensures var to := Phase(Next(s, s.threads[i]));
      if to == Phase(s.threads[i]) then LockOf(Step(s, i)) == LockOf(s)
      else RW.Enabled(LockOf(s), i, to) && LockOf(Step(s, i)) == RW.Move(LockOf(s), i, to)
  {
    PhasesUpdate(s.threads, i, Next(s, s.threads[i]));
  }

  ghost predicate Locking(s: State) { RW.Locking(LockOf(s)) }

  lemma StepLocking(s: State, i: nat)
    requires Locking(s) && CanStep(s, i)
    ensures Locking(Step(s, i))
  {
    StepRefinesLock(s, i);
    var to := Phase(Next(s, s.threads[i]));
    if to != Phase(s.threads[i]) {
      RW.MoveLocking(LockOf(s), i, to);
    }
  }

  // No reader holds the lock, and no one else writes, while a writer is in its section.
  lemma OnlyWriter(s: State, i: nat)
    requires Locking(s) && i < |s.threads| && Writing(s.threads[i])
    ensures forall j :: 0 <= j < |s.threads| && j != i ==>
              !Writing(s.threads[j]) && RW.Holding(Phase(s.threads[j])) == 0
  {
    forall j | 0 <= j < |s.threads| && j != i
      ensures !Writing(s.threads[j]) && RW.Holding(Phase(s.threads[j])) == 0
    {
      RW.WriterExcludes(LockOf(s), i, j);
    }
  }

  lemma OnlyReaders(s: State, i: nat)
    requires Locking(s) && i < |s.threads| && RW.Holding(Phase(s.threads[i])) > 0
    ensures forall j :: 0 <= j < |s.threads| ==> !Writing(s.threads[j])
  {
    forall j | 0 <= j < |s.threads| ensures !Writing(s.threads[j]) {
      if Writing(s.threads[j]) {
        OnlyWriter(s, j);
      }
    }
  }

  // The meaning of the cache: the object of the earliest store of a uri.
  function Lookup(log: seq<Entry>, uri: string): Option<string> {
    if log == [] then None else if log[0].uri == uri then Some(log[0].body) else Lookup(log[1..], uri)
  }

  ghost predicate Unstored(log: seq<Entry>, n: nat, uri: string) {
    forall k :: 0 <= k < n && k < |log| ==> log[k].uri != uri
  }

  lemma {:induction false} LookupIsFirst(log: seq<Entry>, uri: string, k: nat)
    requires k <= |log| && Unstored(log, k, uri)
    ensures k == |log| ==> Lookup(log, uri) == None
    ensures k < |log| && log[k].uri == uri ==> Lookup(log, uri) == Some(log[k].body)
  {
    if k > 0 {
      assert forall m :: 0 <= m < |log| - 1 ==> log[1..][m] == log[m + 1];
      LookupIsFirst(log[1..], uri, k - 1);
    }
  }

  lemma {:induction false} LookupIsStable(log: seq<Entry>, more: seq<Entry>, uri: string)
    ensures Lookup(log, uri).Some? ==> Lookup(log + more, uri) == Lookup(log, uri)
    ensures Lookup(log, uri).None? ==> Lookup(log + more, uri) == Lookup(more, uri)
  {
    if log == [] {
      assert log + more == more;
    } else {
      assert (log + more)[1..] == log[1..] + more;
      LookupIsStable(log[1..], more, uri);
    }
  }

  predicate Decided(t: Thread) {
    t.at in {LeaveP, Decrement, TestLast, LastV, LeaveV, StoreP, NameBegin, NameEnd, ObjectBegin, ObjectEnd,
             CountStore, StoreV, Done}
  }

  function AsText(o: Option<string>): Option<Text> { if o.None? then None else Some(Whole(o.value)) }

  // ---- what holds whatever the slots held at first ----

  // A slot past the completed stores can only be touched by the writer in its section.
  predicate MidStore(t: Thread) { t.at in {NameEnd, ObjectBegin, ObjectEnd, CountStore} }

  predicate NoneStores(s: State) { forall i :: 0 <= i < |s.threads| ==> !MidStore(s.threads[i]) }

  ghost predicate SlotsInv(s: State) {
    && |s.slots| == CAPACITY && s.used == |s.log| <= CAPACITY
    && (forall k :: 0 <= k < CAPACITY && k != s.used ==> s.slots[k].name.Whole? && s.slots[k].body.Whole?)
    && (s.used < CAPACITY && NoneStores(s) ==> s.slots[s.used].name.Whole? && s.slots[s.used].body.Whole?)
  }

  // How far a thread has come with its store.
  ghost predicate StoreInv(s: State, t: Thread) {
    && (t.at.Scan? ==> t.at.index <= CAPACITY)
    && (t.at.Send? ==> t.at.index < CAPACITY)
    && (MidStore(t) ==> s.used < CAPACITY)
    && (t.at in {ObjectBegin, ObjectEnd, CountStore} ==> s.SlotAt(s.used).name == Whole(t.uri))
    && (t.at == CountStore ==> s.SlotAt(s.used).body == Whole(t.Object()))
    && (t.at in {StoreP, NameBegin, NameEnd, ObjectBegin, ObjectEnd, CountStore} ==> t.fetched.Some?)
  }

  ghost predicate Inv(s: State) {
    Locking(s) && SlotsInv(s) && forall i :: 0 <= i < |s.threads| ==> StoreInv(s, s.threads[i])
  }

  lemma InitialInv(s: State)
    requires Initial(s)
    ensures Inv(s)
  {
    RW.FreeLock(LockOf(s));
  }

  // What the lock promises the thread that moves: a writer is alone, and nobody writes beside a reader.
  ghost predicate Exclusive(s: State, i: nat) {
    && i < |s.threads|
    && (Writing(s.threads[i]) ==> forall j :: 0 <= j < |s.threads| && j != i ==>
          !Writing(s.threads[j]) && Phase(s.threads[j]) != RW.Reading)
    && (Phase(s.threads[i]) == RW.Reading ==> forall j :: 0 <= j < |s.threads| ==> !Writing(s.threads[j]))
  }

  lemma LockExcludes(s: State, i: nat)
    requires Locking(s) && i < |s.threads|
    ensures Exclusive(s, i)
  {
    if Writing(s.threads[i]) {
      OnlyWriter(s, i);
    }
    if Phase(s.threads[i]) == RW.Reading {
      OnlyReaders(s, i);
    }
  }

  lemma NoneStoresBefore(s: State, i: nat)
    requires CanStep(s, i) && NoneStores(Step(s, i)) && !MidStore(s.threads[i])
    ensures NoneStores(s)
  {
    var r := Step(s, i);
    forall j | 0 <= j < |s.threads| ensures !MidStore(s.threads[j]) {
      assert j != i ==> s.threads[j] == r.threads[j];
    }
  }

  lemma StepSlots(s: State, i: nat)
    requires SlotsInv(s) && CanStep(s, i) && StoreInv(s, s.threads[i]) && Exclusive(s, i)
    ensures SlotsInv(Step(s, i))
  {
    var r := Step(s, i);
    if NoneStores(r) {
      assert !MidStore(r.threads[i]);
      if !MidStore(s.threads[i]) {
        NoneStoresBefore(s, i);
      }
    }
  }

  // The thread that moves keeps its facts, and so does every other one.
  lemma StoresItself(s: State, i: nat)
    requires SlotsInv(s) && CanStep(s, i) && StoreInv(s, s.threads[i])
    ensures StoreInv(Step(s, i), Next(s, s.threads[i]))
  {
  }

  lemma StoresBeside(s: State, i: nat, j: nat)
    requires CanStep(s, i) && j < |s.threads| && j != i && Exclusive(s, i) && StoreInv(s, s.threads[j])
    ensures StoreInv(Step(s, i), s.threads[j])
  {
    if !Writing(s.threads[i]) {
      assert var r := Step(s, i); r.slots == s.slots && r.used == s.used;
    }
  }

  lemma StepInv(s: State, i: nat)
    requires Inv(s) && CanStep(s, i)
    ensures Inv(Step(s, i))
  {
    StepLocking(s, i);
    LockExcludes(s, i);
    StepSlots(s, i);
    var r := Step(s, i);
    forall j | 0 <= j < |r.threads| ensures StoreInv(r, r.threads[j]) {
      if j == i {
        StoresItself(s, i);
      } else {
        StoresBeside(s, i, j);
      }
    }
  }

  lemma {:induction false} ReachableInv(s: State, schedule: seq<nat>, r: State)
    requires Inv(s) && Reaches(s, schedule, r)
    ensures Inv(r)
    decreases |schedule|
  {
    if schedule != [] {
      StepInv(s, schedule[0]);
      ReachableInv(Step(s, schedule[0]), schedule[1..], r);
    }
  }

  lemma ReachableFromInitial(s: State, schedule: seq<nat>, r: State)
    requires Initial(s) && Reaches(s, schedule, r)
    ensures Inv(r)
  {
    InitialInv(s);
    ReachableInv(s, schedule, r);
  }

  // Mutual exclusion in every reachable state of the proxy.
  lemma LockIsSafe(s: State, schedule: seq<nat>, r: State)
    requires Initial(s) && Reaches(s, schedule, r)
    ensures r.readcnt == Total(LockOf(r).points, RW.Counted)
    ensures forall i, j :: 0 <= i < |r.threads| && 0 <= j < |r.threads| && i != j && Writing(r.threads[i]) ==>
              !Writing(r.threads[j]) && RW.Holding(Phase(r.threads[j])) == 0
  {
    ReachableFromInitial(s, schedule, r);
    RW.ReadersCounted(LockOf(r));
    forall i, j | 0 <= i < |r.threads| && 0 <= j < |r.threads| && i != j && Writing(r.threads[i])
      ensures !Writing(r.threads[j]) && RW.Holding(Phase(r.threads[j])) == 0
    {
      OnlyWriter(r, i);
    }
  }

  lemma WholeTexts(s: State, i: nat, k: nat)
    requires SlotsInv(s) && Exclusive(s, i) && Phase(s.threads[i]) == RW.Reading && k < CAPACITY
    ensures s.slots[k].name.Whole? && s.slots[k].body.Whole?
  {
  }

  // No lookup ever reads a text that a strcpy is writing.
  lemma NoTornReads(s: State, schedule: seq<nat>, r: State, i: nat, k: nat)
    requires Initial(s) && Reaches(s, schedule, r) && i < |r.threads| && Phase(r.threads[i]) == RW.Reading && k < CAPACITY
    ensures r.SlotAt(k).name.Whole? && r.SlotAt(k).body.Whole?
  {
    ReachableFromInitial(s, schedule, r);
    LockExcludes(r, i);
    WholeTexts(r, i, k);
  }

  // ---- what the cache means when no slot holds a requested uri by chance ----

  ghost function Uris(ts: seq<Thread>): seq<string> {
    seq(|ts|, i requires 0 <= i < |ts| => ts[i].uri)
  }

  lemma UrisKept(s: State, i: nat)
    requires CanStep(s, i)
    ensures Uris(Step(s, i).threads) == Uris(s.threads)
  {
  }

  ghost predicate Unnamed(slot: Slot, uris: seq<string>) { slot.name.Whole? && slot.name.text !in uris }

  // No unused slot has the name of a request.
  ghost predicate Blank(s: State) { forall k :: 0 <= k < |s.slots| ==> Unnamed(s.slots[k], Uris(s.threads)) }

  // The used slots hold the completed stores, and the others no requested uri.
  ghost predicate EntriesInv(s: State) {
    && |s.slots| == CAPACITY && s.used == |s.log| <= CAPACITY
    && (forall k :: 0 <= k < s.used ==> s.slots[k] == Slot(Whole(s.log[k].uri), Whole(s.log[k].body)))
    && (forall k :: s.used < k < CAPACITY ==> Unnamed(s.slots[k], Uris(s.threads)))
    && (s.used < CAPACITY && NoneStores(s) ==> Unnamed(s.slots[s.used], Uris(s.threads)))
  }

  // What each thread knows of its lookup.
  ghost predicate LookupInv(s: State, t: Thread) {
    && (t.at != EnterP ==> t.since <= |s.log|)
    && (t.at.Scan? ==> Unstored(s.log, t.at.index, t.uri))
    && (t.at.Send? ==> t.at.index < |s.log| && s.log[t.at.index].uri == t.uri && Unstored(s.log, t.at.index, t.uri))
    && (!Decided(t) ==> t.answer.None?)
    && (Decided(t) ==> t.since <= t.seen <= |s.log| && t.answer == AsText(Lookup(s.log[..t.seen], t.uri)))
  }

  ghost predicate Meaning(s: State) {
    EntriesInv(s) && forall i :: 0 <= i < |s.threads| ==> LookupInv(s, s.threads[i])
  }

  lemma StepEntries(s: State, i: nat)
    requires EntriesInv(s) && CanStep(s, i) && StoreInv(s, s.threads[i]) && Exclusive(s, i)
    ensures EntriesInv(Step(s, i))
  {
    var r := Step(s, i);
    UrisKept(s, i);
    if NoneStores(r) {
      assert !MidStore(r.threads[i]);
      if !MidStore(s.threads[i]) {
        NoneStoresBefore(s, i);
      }
    }
  }

  // The comparison of a reader with one slot tells whether that entry of the log has its uri.
  lemma SlotTells(s: State, i: nat, k: nat)
    requires EntriesInv(s) && Exclusive(s, i) && Phase(s.threads[i]) == RW.Reading && k < CAPACITY
    ensures s.SlotAt(k).name == Whole(s.threads[i].uri) <==> k < |s.log| && s.log[k].uri == s.threads[i].uri
  {
    assert Uris(s.threads)[i] == s.threads[i].uri;
  }

  lemma ScanEnds(s: State, i: nat)
    requires EntriesInv(s) && CanStep(s, i) && LookupInv(s, s.threads[i])
    requires s.threads[i].at.Scan? && s.threads[i].at.index >= CAPACITY
    ensures LookupInv(Step(s, i), Next(s, s.threads[i]))
  {
    assert s.log[..|s.log|] == s.log;
    LookupIsFirst(s.log, s.threads[i].uri, |s.log|);
  }

  lemma ScanGoesOn(s: State, i: nat, k: nat)
    requires CanStep(s, i) && LookupInv(s, s.threads[i]) && s.threads[i].at == Scan(k) && k < CAPACITY
    requires s.SlotAt(k).name == Whole(s.threads[i].uri) <==> k < |s.log| && s.log[k].uri == s.threads[i].uri
    ensures LookupInv(Step(s, i), Next(s, s.threads[i]))
  {
  }

  // A lookup decides on the entry that comes first in the log, and on nothing if there is none.
  lemma ScanStep(s: State, i: nat)
    requires EntriesInv(s) && CanStep(s, i) && LookupInv(s, s.threads[i]) && Exclusive(s, i) && s.threads[i].at.Scan?
    ensures LookupInv(Step(s, i), Next(s, s.threads[i]))
  {
    if s.threads[i].at.index >= CAPACITY {
      ScanEnds(s, i);
    } else {
      SlotTells(s, i, s.threads[i].at.index);
      ScanGoesOn(s, i, s.threads[i].at.index);
    }
  }

  lemma SendStep(s: State, i: nat)
    requires EntriesInv(s) && CanStep(s, i) && LookupInv(s, s.threads[i]) && s.threads[i].at.Send?
    ensures LookupInv(Step(s, i), Next(s, s.threads[i]))
  {
    assert s.log[..|s.log|] == s.log;
    LookupIsFirst(s.log, s.threads[i].uri, s.threads[i].at.index);
  }

  // A store only adds to the log.
  lemma LongerLog(s: State, i: nat, t: Thread)
    requires CanStep(s, i) && LookupInv(s, t) && !t.at.Scan? && !t.at.Send?
    ensures LookupInv(Step(s, i), t)
  {
    if Decided(t) {
      assert Step(s, i).log[..t.seen] == s.log[..t.seen];
    }
  }

  // The thread that moves keeps its own facts.
  lemma StepSelf(s: State, i: nat)
    requires EntriesInv(s) && CanStep(s, i) && LookupInv(s, s.threads[i]) && Exclusive(s, i)
    ensures LookupInv(Step(s, i), Next(s, s.threads[i]))
  {
    if s.threads[i].at.Scan? {
      ScanStep(s, i);
    } else if s.threads[i].at.Send? {
      SendStep(s, i);
    } else {
      LongerLog(s, i, s.threads[i]);
    }
  }

  // Every other thread keeps its facts, also while this one stores.
  lemma StepOther(s: State, i: nat, j: nat)
    requires CanStep(s, i) && j < |s.threads| && j != i && LookupInv(s, s.threads[j]) && Exclusive(s, i)
    ensures LookupInv(Step(s, i), s.threads[j])
  {
    if s.threads[i].at == CountStore {
      LongerLog(s, i, s.threads[j]);
    }
  }

  lemma StepMeaning(s: State, i: nat)
    requires Inv(s) && Meaning(s) && CanStep(s, i)
    ensures Meaning(Step(s, i))
  {
    LockExcludes(s, i);
    StepEntries(s, i);
    StepSelf(s, i);
    var r := Step(s, i);
    forall j | 0 <= j < |r.threads| ensures LookupInv(r, r.threads[j]) {
      if j != i {
        StepOther(s, i, j);
      }
    }
  }

  lemma {:induction false} RunMeaning(s: State, schedule: seq<nat>, r: State)
    requires Inv(s) && Meaning(s) && Reaches(s, schedule, r)
    ensures Meaning(r)
    decreases |schedule|
  {
    if schedule != [] {
      StepInv(s, schedule[0]);
      StepMeaning(s, schedule[0]);
      RunMeaning(Step(s, schedule[0]), schedule[1..], r);
    }
  }

  lemma MeaningFromInitial(s: State, schedule: seq<nat>, r: State)
    requires Initial(s) && Blank(s) && Reaches(s, schedule, r)
    ensures Meaning(r)
  {
    InitialInv(s);
    RunMeaning(s, schedule, r);
  }

  // Every answered lookup returned what the append-only first-write-wins map held at one moment
  // between its beginning and now: the whole object of the earliest completed store of its uri.
  lemma LookupsLinearize(s: State, schedule: seq<nat>, r: State, i: nat)
    requires Initial(s) && Blank(s) && Reaches(s, schedule, r) && i < |r.threads| && Decided(r.threads[i])
    ensures var t := r.threads[i];
      && t.since <= t.seen <= |r.log|
      && t.answer == AsText(Lookup(r.log[..t.seen], t.uri))
      && (t.answer.Some? ==> t.answer == AsText(Lookup(r.log, t.uri)))
      && (Lookup(r.log[..t.since], t.uri).Some? ==> t.answer.Some?)
  {
    MeaningFromInitial(s, schedule, r);
    var t := r.threads[i];
    assert r.log == r.log[..t.seen] + r.log[t.seen..];
    LookupIsStable(r.log[..t.seen], r.log[t.seen..], t.uri);
    assert r.log[..t.seen] == r.log[..t.since] + r.log[t.since..t.seen];
    LookupIsStable(r.log[..t.since], r.log[t.since..t.seen], t.uri);
  }

  lemma RepeatedHitsAgree(s: State, schedule: seq<nat>, r: State, i: nat, j: nat)
    requires Initial(s) && Blank(s) && Reaches(s, schedule, r) && i < |r.threads| && j < |r.threads|
    requires Decided(r.threads[i]) && Decided(r.threads[j]) && r.threads[i].uri == r.threads[j].uri
    requires r.threads[i].answer.Some? && r.threads[j].answer.Some?
    ensures r.threads[i].answer == r.threads[j].answer
  {
    LookupsLinearize(s, schedule, r, i);
    LookupsLinearize(s, schedule, r, j);
  }

  // ---- what is stored and sent is what some request of the same uri fetched ----

  // Thread j has stored this entry: its uri with the response it fetched.
  predicate StoredBy(t: Thread, e: Entry) {
    t.at in {StoreV, Done} && t.uri == e.uri && t.fetched.Some? && t.fetched.value == e.body
  }

  ghost predicate Fetched(ts: seq<Thread>, e: Entry) { exists j :: 0 <= j < |ts| && StoredBy(ts[j], e) }

  ghost predicate AllFetched(s: State) {
    forall k :: 0 <= k < |s.log| ==> Fetched(s.threads, s.log[k])
  }

  lemma StillFetched(s: State, i: nat, e: Entry)
    requires CanStep(s, i) && Fetched(s.threads, e)
    ensures Fetched(Step(s, i).threads, e)
  {
    var j :| 0 <= j < |s.threads| && StoredBy(s.threads[j], e);
    assert StoredBy(Step(s, i).threads[j], e);
  }

  lemma NowFetched(s: State, i: nat)
    requires CanStep(s, i) && StoreInv(s, s.threads[i]) && s.threads[i].at == CountStore
    ensures Step(s, i).log == s.log + [Step(s, i).log[|s.log|]]
    ensures Fetched(Step(s, i).threads, Step(s, i).log[|s.log|])
  {
    assert StoredBy(Step(s, i).threads[i], Step(s, i).log[|s.log|]);
  }

  lemma StepFetched(s: State, i: nat)
    requires CanStep(s, i) && StoreInv(s, s.threads[i]) && AllFetched(s)
    ensures AllFetched(Step(s, i))
  {
    var r := Step(s, i);
    if s.threads[i].at == CountStore {
      NowFetched(s, i);
    }
    forall k | 0 <= k < |r.log| ensures Fetched(r.threads, r.log[k]) {
      if k < |s.log| {
        StillFetched(s, i, s.log[k]);
      }
    }
  }

  lemma {:induction false} RunFetched(s: State, schedule: seq<nat>, r: State)
    requires Inv(s) && AllFetched(s) && Reaches(s, schedule, r)
    ensures AllFetched(r)
    decreases |schedule|
  {
    if schedule != [] {
      StepInv(s, schedule[0]);
      StepFetched(s, schedule[0]);
      RunFetched(Step(s, schedule[0]), schedule[1..], r);
    }
  }

  // Every completed store is of a response that a request of its uri fetched.
  lemma StoresAreFetched(s: State, schedule: seq<nat>, r: State, k: nat) returns (j: nat)
    requires Initial(s) && Reaches(s, schedule, r) && k < |r.log|
    ensures j < |r.threads| && r.threads[j].uri == r.log[k].uri && r.threads[j].fetched == Some(r.log[k].body)
  {
    InitialInv(s);
    RunFetched(s, schedule, r);
    j :| 0 <= j < |r.threads| && StoredBy(r.threads[j], r.log[k]);
  }

  lemma {:induction false} LookupFinds(log: seq<Entry>, uri: string) returns (k: nat)
    requires Lookup(log, uri).Some?
    ensures k < |log| && log[k].uri == uri && Lookup(log, uri) == Some(log[k].body)
  {
    if log[0].uri == uri {
      k := 0;
    } else {
      k := LookupFinds(log[1..], uri);
      k := k + 1;
    }
  }

  // So a hit sends a response that some request of the same uri fetched.
  lemma HitsAreFetched(s: State, schedule: seq<nat>, r: State, i: nat) returns (j: nat)
    requires Initial(s) && Blank(s) && Reaches(s, schedule, r)
    requires i < |r.threads| && Decided(r.threads[i]) && r.threads[i].answer.Some?
    ensures j < |r.threads| && r.threads[j].uri == r.threads[i].uri && r.threads[j].fetched.Some?
    ensures r.threads[i].answer == Some(Whole(r.threads[j].fetched.value))
  {
    LookupsLinearize(s, schedule, r, i);
    var k := LookupFinds(r.log, r.threads[i].uri);
    j := StoresAreFetched(s, schedule, r, k);
  }

  // ---- what was stored before a lookup began is found by it ----

  // Thread i has not begun its lookup, or began it after n stores.
  ghost predicate Begun(s: State, i: nat, n: nat) {
    && s.used == |s.log| && n <= |s.log| && i < |s.threads|
    && (s.threads[i].at == EnterP || s.threads[i].since >= n)
  }

  lemma {:induction false} BeginsAfter(s: State, schedule: seq<nat>, r: State, i: nat, n: nat)
    requires Reaches(s, schedule, r) && Begun(s, i, n)
    ensures Begun(r, i, n) && r.threads[i].uri == s.threads[i].uri
    decreases |schedule|
  {
    if schedule != [] {
      BeginsAfter(Step(s, schedule[0]), schedule[1..], r, i, n);
    }
  }

  lemma {:induction false} ReachesInParts(s: State, first: seq<nat>, m: State, second: seq<nat>, r: State)
    requires Reaches(s, first, m) && Reaches(m, second, r)
    ensures Reaches(s, first + second, r)
    decreases |first|
  {
    if first == [] {
      assert first + second == second;
    } else {
      ReachesInParts(Step(s, first[0]), first[1..], m, second, r);
      assert (first + second)[1..] == first[1..] + second;
    }
  }

  // If the uri of a request is stored when the request has not begun its lookup, the lookup is a hit
  // and returns that object.
  lemma StoredBeforeIsHit(s: State, first: seq<nat>, m: State, second: seq<nat>, r: State, i: nat)
    requires Initial(s) && Blank(s) && Reaches(s, first, m) && Reaches(m, second, r) && i < |m.threads|
    requires m.threads[i].at == EnterP && Lookup(m.log, m.threads[i].uri).Some?
    requires i < |r.threads| && Decided(r.threads[i])
    ensures r.threads[i].answer == AsText(Lookup(m.log, m.threads[i].uri))
  {
    ReachableFromInitial(s, first, m);
    BeginsAfter(m, second, r, i, |m.log|);
    LogOnlyGrows(m, second, r);
    ReachesInParts(s, first, m, second, r);
    LookupsLinearize(s, first + second, r, i);
    var t := r.threads[i];
    assert r.log[..t.seen] == m.log + r.log[|m.log|..t.seen];
    LookupIsStable(m.log, r.log[|m.log|..t.seen], t.uri);
  }

  // Completed stores are never forgotten or changed.
  lemma {:induction false} LogOnlyGrows(s: State, schedule: seq<nat>, r: State)
    requires Reaches(s, schedule, r)
    ensures s.log <= r.log
    decreases |schedule|
  {
    if schedule != [] {
      LogOnlyGrows(Step(s, schedule[0]), schedule[1..], r);
    }
  }

  // A writer stands before the array's end: its next step is undefined.
  ghost predicate Overflow(s: State) {
    exists i :: 0 <= i < |s.threads| && s.threads[i].at == NameBegin && s.used >= CAPACITY
  }

  function Rank(at: Point): int {
    match at
    case EnterP => 30
    case Increment => 29
    case TestFirst => 28
    case FirstP => 27
    case EnterV => 26
    case Scan(k) => 15 + (if k <= CAPACITY then CAPACITY - k else 0)
    case Send(_) => 14
    case LeaveP => 13
    case Decrement => 12
    case TestLast => 11
    case LastV => 10
    case LeaveV => 9
    case StoreP => 8
    case NameBegin => 7
    case NameEnd => 6
    case ObjectBegin => 5
    case ObjectEnd => 4
    case CountStore => 3
    case StoreV => 2
    case Done => 0
  }

  function Work(t: Thread): int { Rank(t.at) }

  lemma StepWork(s: State, i: nat)
    requires CanStep(s, i)
    ensures Total(Step(s, i).threads, Work) < Total(s.threads, Work)
  {
    var t := s.threads[i];
    assert Work(Next(s, t)) < Work(t);
    TotalUpdate(s.threads, i, Next(s, t), Work);
  }

  lemma {:induction false} RunWork(s: State, schedule: seq<nat>, r: State)
    requires Reaches(s, schedule, r)
    ensures |schedule| <= Total(s.threads, Work) - Total(r.threads, Work)
    decreases |schedule|
  {
    if schedule != [] {
      StepWork(s, schedule[0]);
      RunWork(Step(s, schedule[0]), schedule[1..], r);
    }
  }

  predicate Finished(s: State) { forall i :: 0 <= i < |s.threads| ==> s.threads[i].at == Done }

  ghost predicate Stuck(s: State) { forall i: nat :: !CanStep(s, i) }

  // No reachable state deadlocks, even when a reader waits for w while it holds mutex: as long as a
  // request is unfinished, some thread can move, unless a writer stands before the array's end.
  lemma Progress(s: State) returns (i: nat)
    requires Inv(s) && !Overflow(s) && !Finished(s)
    ensures CanStep(s, i)
  {
    i :| 0 <= i < |s.threads| && s.threads[i].at != Done;
    if k :| 0 <= k < |s.threads| && Phase(s.threads[k]) != RW.Rest {
      var to;
      i, to := RW.SomeoneCanMove(LockOf(s), k);
    } else {
      RW.FreeLock(LockOf(s));
    }
  }

  // Every run ends within the given number of steps. One that cannot go on has served all requests and
  // left the lock free, or has come to the array's end.
  lemma EveryMaximalRunCompletes(s: State, schedule: seq<nat>, r: State)
    requires Initial(s) && Reaches(s, schedule, r)
    ensures |schedule| <= 30 * |s.threads|
    ensures Stuck(r) ==> Finished(r) || Overflow(r)
    ensures Finished(r) ==> Stuck(r) && r.mutex == 1 && r.w == 1 && r.readcnt == 0
  {
    ReachableFromInitial(s, schedule, r);
    RunWork(s, schedule, r);
    WorkLeft(r.threads);
    InitialWork(s.threads);
    if Finished(r) {
      FinishedIsFree(r);
    } else if !Overflow(r) {
      var i := Progress(r);
    }
  }

  lemma WorkLeft(ts: seq<Thread>)
    ensures Total(ts, Work) >= 0
  {
    TotalNonnegative(ts, Work);
  }

  lemma FinishedIsFree(r: State)
    requires Locking(r) && Finished(r)
    ensures r.mutex == 1 && r.w == 1 && r.readcnt == 0
  {
    RW.FreeLock(LockOf(r));
  }

  lemma {:induction false} InitialWork(ts: seq<Thread>)
    requires forall i :: 0 <= i < |ts| ==> ts[i].at == EnterP
    ensures Total(ts, Work) == 30 * |ts|
  {
    if ts != [] {
      InitialWork(ts[1..]);
    }
  }

  lemma {:induction false} OneMoreStep(s: State, schedule: seq<nat>, r: State, i: nat)
    requires Reaches(s, schedule, r) && CanStep(r, i)
    ensures Reaches(s, schedule + [i], Step(r, i))
    decreases |schedule|
  {
    if schedule == [] {
      assert [i][1..] == [];
    } else {
      OneMoreStep(Step(s, schedule[0]), schedule[1..], r, i);
      assert (schedule + [i])[1..] == schedule[1..] + [i];
    }
  }

  // The program's own form: the shared variables of the proxy, changed in place one step at a time.
  class Proxy {
    const slots: array<Slot>
    var used: nat
    var readcnt: int
    var mutex: nat
    var w: nat
    var threads: seq<Thread>
    ghost var log: seq<Entry>

    ghost function Current(): State
      reads this, slots
    {
      State(slots[..], used, readcnt, mutex, w, threads, log)
    }

    // init_cache, with what the allocated memory holds and the connections that will be served.
    constructor (memory: seq<Slot>, threads: seq<Thread>)
      requires |memory| == CAPACITY && forall k :: 0 <= k < CAPACITY ==> memory[k].name.Whole? && memory[k].body.Whole?
      requires forall i :: 0 <= i < |threads| ==> threads[i].at == EnterP && threads[i].answer.None?
      ensures Initial(Current()) && slots[..] == memory && this.threads == threads && fresh(slots)
    {
      slots := new Slot[CAPACITY](k requires 0 <= k < CAPACITY => memory[k]);
      used, readcnt := 0, 0;
      mutex, w := 1, 1;
      this.threads := threads;
      log := [];
    }

    // Whether thread i is not blocked in a P, done, or before the end of the array.
    method AbleToMove(i: nat) returns (able: bool)
      ensures able <==> CanStep(Current(), i)
    {
      able := false;
      if i < |threads| {
        match threads[i].at {
          case EnterP | LeaveP => able := mutex > 0;
          case FirstP | StoreP => able := w > 0;
          case NameBegin => able := used < CAPACITY;
          case Done =>
          case _ => able := true;
        }
      }
    }

    // Let thread i perform its next line of reader or writer.
    method Advance(i: nat)
      requires slots.Length == CAPACITY && CanStep(Current(), i)
      modifies this, slots
      ensures Current() == Step(old(Current()), i)
    {
      if threads[i].at == StoreP || Writing(threads[i]) {
        AdvanceWriter(i);
      } else {
        AdvanceReader(i);
      }
    }

    method AdvanceReader(i: nat)
      requires slots.Length == CAPACITY && CanStep(Current(), i) && i < |threads|
      requires threads[i].at != StoreP && !Writing(threads[i])
      modifies this
      ensures Current() == Step(old(Current()), i)
    {
      var t := threads[i];
      match t.at {
        case EnterP =>
          mutex := mutex - 1;
          threads := threads[i := t.(at := Increment, since := used)];
        case Increment =>
          readcnt := readcnt + 1;
          threads := threads[i := t.(at := TestFirst)];
        case TestFirst =>
          threads := threads[i := t.(at := if readcnt == 1 then FirstP else EnterV)];
        case FirstP =>
          w := w - 1;
          threads := threads[i := t.(at := EnterV)];
        case EnterV =>
          mutex := mutex + 1;
          threads := threads[i := t.(at := Scan(0))];
        case Scan(k) =>
          if k >= CAPACITY {
            threads := threads[i := t.(at := LeaveP, seen := used)];
          } else if slots[k].name == Whole(t.uri) {
            threads := threads[i := t.(at := Send(k))];
          } else {
            threads := threads[i := t.(at := Scan(k + 1))];
          }
        case Send(k) =>
          var sent := if k < CAPACITY then slots[k].body else Torn;
          threads := threads[i := t.(at := LeaveP, seen := used, answer := Some(sent))];
        case LeaveP =>
          mutex := mutex - 1;
          threads := threads[i := t.(at := Decrement)];
        case Decrement =>
          readcnt := readcnt - 1;
          threads := threads[i := t.(at := TestLast)];
        case TestLast =>
          threads := threads[i := t.(at := if readcnt == 0 then LastV else LeaveV)];
        case LastV =>
          w := w + 1;
          threads := threads[i := t.(at := LeaveV)];
        case LeaveV =>
          mutex := mutex + 1;
          threads := threads[i := t.(at := if t.answer.Some? || t.fetched.None? then Done else StoreP)];
        case _ =>
      }
    }

    method AdvanceWriter(i: nat)
      requires slots.Length == CAPACITY && CanStep(Current(), i) && i < |threads|
      requires threads[i].at == StoreP || Writing(threads[i])
      modifies this, slots
      ensures Current() == Step(old(Current()), i)
    {
      var t := threads[i];
      match t.at {
        case StoreP =>
          w := w - 1;
          threads := threads[i := t.(at := NameBegin)];
        case NameBegin =>
          PutSlot(Torn, true);
          threads := threads[i := t.(at := NameEnd)];
        case NameEnd =>
          PutSlot(Whole(t.uri), true);
          threads := threads[i := t.(at := ObjectBegin)];
        case ObjectBegin =>
          PutSlot(Torn, false);
          threads := threads[i := t.(at := ObjectEnd)];
        case ObjectEnd =>
          PutSlot(Whole(t.Object()), false);
          threads := threads[i := t.(at := CountStore)];
        case CountStore =>
          used := used + 1;
          log := log + [Entry(t.uri, t.Object())];
          threads := threads[i := t.(at := StoreV)];
        case StoreV =>
          w := w + 1;
          threads := threads[i := t.(at := Done)];
        case _ =>
      }
    }

    // One write into objects[used_cnt]: the name, or the object.
    method PutSlot(text: Text, name: bool)
      requires slots.Length == CAPACITY
      modifies slots
      ensures var s := old(Current());
        slots[..] == s.SetSlot(if name then s.SlotAt(used).(name := text) else s.SlotAt(used).(body := text))
    {
      if used < CAPACITY {
        slots[used] := if name then slots[used].(name := text) else slots[used].(body := text);
      }
    }

    // Follow a schedule until it ends or names a request that cannot move.
    method Run(schedule: seq<nat>) returns (steps: nat)
      requires slots.Length == CAPACITY
      modifies this, slots
      ensures steps <= |schedule| && Reaches(old(Current()), schedule[..steps], Current())
      ensures steps < |schedule| ==> !CanStep(Current(), schedule[steps])
    {
      steps := 0;
      while steps < |schedule|
        invariant steps <= |schedule| && Reaches(old(Current()), schedule[..steps], Current())
      {
        var i := schedule[steps];
        var able := AbleToMove(i);
        if !able {
          return;
        }
        OneMoreStep(old(Current()), schedule[..steps], Current(), i);
        Advance(i);
        assert schedule[..steps + 1] == schedule[..steps] + [i];
        steps := steps + 1;
      }
    }
  }
}
