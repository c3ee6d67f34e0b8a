// The pool of clients of the select-based echo server.
module SelectPool {

  const FD_SETSIZE := 1024

  // ---- the bookkeeping on values ----

  // What a pool records: the descriptor in each slot (-1 when free), the descriptors to select on,
  // the largest descriptor, and the largest slot ever used.
  datatype Pool = Pool(fds: seq<int>, readSet: set<int>, maxfd: int, maxi: int)

  // One turn of the server's loop: what select reports, the descriptor accept would return, and the
  // clients whose next read is end of file.
  datatype Turn = Turn(ready: set<int>, connfd: int, closing: set<int>)

  function Larger(a: int, b: int): int { if a > b then a else b }

  // The first free slot, or the number of slots.
  function FreeSlot(fds: seq<int>): (i: nat)
    ensures i <= |fds| && (i < |fds| ==> fds[i] < 0) && forall j :: 0 <= j < i ==> fds[j] >= 0
  {
    if fds == [] then 0
    else
      var i := FreeSlot(fds[..|fds| - 1]);
      if i == |fds| - 1 && fds[i] >= 0 then |fds| else i
  }

  // The clients that are ready, in slot order.
  function ReadyClients(fds: seq<int>, ready: set<int>): seq<int> {
    if fds == [] then []
    else
      var n := |fds| - 1;
      ReadyClients(fds[..n], ready) + if fds[n] > 0 && fds[n] in ready then [fds[n]] else []
  }

  predicate Hangup(fd: int, t: Turn) { fd > 0 && fd in t.ready && fd in t.closing }

  // The slots after each ready client has been served once.
  function Remaining(fds: seq<int>, t: Turn): (r: seq<int>)
    ensures |r| == |fds| && forall i :: 0 <= i < |fds| ==> r[i] == if Hangup(fds[i], t) then -1 else fds[i]
  {
    if fds == [] then []
    else
      var n := |fds| - 1;
      Remaining(fds[..n], t) + [if Hangup(fds[n], t) then -1 else fds[n]]
  }

  function Admit(p: Pool, connfd: int): Pool {
    var i := FreeSlot(p.fds);
    if i == |p.fds| then p
    else Pool(p.fds[i := connfd], p.readSet + {connfd}, Larger(p.maxfd, connfd), Larger(p.maxi, i))
  }

  function Arrive(p: Pool, listenfd: int, t: Turn): Pool {
    if listenfd in t.ready then Admit(p, t.connfd) else p
  }

  function Serve(p: Pool, listenfd: int, t: Turn): Pool {
    p.(fds := Remaining(p.fds, t), readSet := p.readSet - (t.ready * t.closing - {listenfd}))
  }

  function Next(p: Pool, listenfd: int, t: Turn): Pool { Serve(Arrive(p, listenfd, t), listenfd, t) }

  // select reports descriptors it was asked about, and accept returns a positive one not among them.
  predicate Legal(p: Pool, t: Turn) {
    t.ready <= p.readSet && t.connfd > 0 && t.connfd !in p.readSet
  }

  // ---- the invariant ----

  predicate IsClient(fds: seq<int>, fd: int) { fd > 0 && fd in fds }

  ghost predicate Inv(p: Pool, listenfd: int) {
    && listenfd >= 0 && |p.fds| == FD_SETSIZE
    && (forall i :: 0 <= i < |p.fds| ==> p.fds[i] == -1 || p.fds[i] > 0)
    && (forall i, j :: 0 <= i < j < |p.fds| && p.fds[i] > 0 ==> p.fds[i] != p.fds[j])
    && listenfd in p.readSet && listenfd !in p.fds
    && (forall fd :: fd in p.readSet <==> fd == listenfd || IsClient(p.fds, fd))
    && -1 <= p.maxi < |p.fds|
    && (forall i :: p.maxi < i < |p.fds| ==> p.fds[i] == -1)
    && (forall fd :: fd in p.readSet ==> fd <= p.maxfd)
  }

  lemma AdmitKeepsInv(p: Pool, listenfd: int, connfd: int)
    requires Inv(p, listenfd) && connfd > 0 && connfd !in p.readSet
    ensures Inv(Admit(p, connfd), listenfd)
  {
    var i, q := FreeSlot(p.fds), Admit(p, connfd);
    if i < |p.fds| {
      assert q.fds[i] == connfd;
      forall fd ensures IsClient(q.fds, fd) <==> fd == connfd || IsClient(p.fds, fd) {
        if IsClient(p.fds, fd) {
          var k :| 0 <= k < |p.fds| && p.fds[k] == fd;
          assert q.fds[k] == fd;
        }
      }
      forall k | 0 <= k < |p.fds| ensures p.fds[k] != connfd {
        assert p.fds[k] > 0 ==> IsClient(p.fds, p.fds[k]);
      }
    }
  }

  lemma ServiceKeepsInv(p: Pool, listenfd: int, t: Turn)
    requires Inv(p, listenfd)
    ensures Inv(Serve(p, listenfd, t), listenfd)
  {
    var fds := Remaining(p.fds, t);
    forall fd ensures IsClient(fds, fd) <==> IsClient(p.fds, fd) && !Hangup(fd, t) {
      if IsClient(p.fds, fd) && !Hangup(fd, t) {
        var k :| 0 <= k < |p.fds| && p.fds[k] == fd;
        assert fds[k] == fd;
      }
    }
  }

  // Serving closes exactly the ready clients at end of file: all others keep their slot.
  lemma ClosedExactly(p: Pool, listenfd: int, t: Turn, fd: int)
    requires Inv(p, listenfd)
    ensures fd in Serve(p, listenfd, t).readSet <==>
              fd in p.readSet && (fd == listenfd || fd !in t.ready || fd !in t.closing)
    ensures IsClient(Serve(p, listenfd, t).fds, fd) <==> IsClient(p.fds, fd) && (fd !in t.ready || fd !in t.closing)
    ensures forall i :: 0 <= i < |p.fds| && Serve(p, listenfd, t).fds[i] > 0 ==> Serve(p, listenfd, t).fds[i] == p.fds[i]
  {
    ServiceKeepsInv(p, listenfd, t);
    assert fd == listenfd ==> !IsClient(p.fds, fd);
  }

  // Admitting adds exactly the new client, in a slot that was free.
  lemma AdmittedExactly(p: Pool, listenfd: int, connfd: int, fd: int)
    requires Inv(p, listenfd) && connfd > 0 && connfd !in p.readSet && FreeSlot(p.fds) < |p.fds|
    ensures fd in Admit(p, connfd).readSet <==> fd == connfd || fd in p.readSet
    ensures IsClient(Admit(p, connfd).fds, fd) <==> fd == connfd || IsClient(p.fds, fd)
    ensures forall i :: 0 <= i < |p.fds| && p.fds[i] > 0 ==> Admit(p, connfd).fds[i] == p.fds[i]
  {
    AdmitKeepsInv(p, listenfd, connfd);
    assert fd == listenfd ==> !IsClient(p.fds, fd);
  }

  // Every turn keeps the invariant.
  lemma TurnKeepsInv(p: Pool, listenfd: int, t: Turn)
    requires Inv(p, listenfd) && Legal(p, t)
    ensures Inv(Arrive(p, listenfd, t), listenfd) && Inv(Next(p, listenfd, t), listenfd)
  {
    if listenfd in t.ready {
      AdmitKeepsInv(p, listenfd, t.connfd);
    }
    ServiceKeepsInv(Arrive(p, listenfd, t), listenfd, t);
  }

  predicate LegalRun(p: Pool, listenfd: int, turns: seq<Turn>)
    decreases |turns|
  {
    turns == [] || (Legal(p, turns[0]) && LegalRun(Next(p, listenfd, turns[0]), listenfd, turns[1..]))
  }

  function After(p: Pool, listenfd: int, turns: seq<Turn>): Pool
    decreases |turns|
  {
    if turns == [] then p else After(Next(p, listenfd, turns[0]), listenfd, turns[1..])
  }

  lemma {:induction false} RunKeepsInv(p: Pool, listenfd: int, turns: seq<Turn>)
    requires Inv(p, listenfd) && LegalRun(p, listenfd, turns)
    ensures Inv(After(p, listenfd, turns), listenfd)
    decreases |turns|
  {
    if turns != [] {
      TurnKeepsInv(p, listenfd, turns[0]);
      RunKeepsInv(Next(p, listenfd, turns[0]), listenfd, turns[1..]);
    }
  }

  // ---- each ready client exactly once ----

  lemma {:induction false} ReadyClientsMembers(fds: seq<int>, ready: set<int>)
    ensures forall fd :: fd in ReadyClients(fds, ready) <==> IsClient(fds, fd) && fd in ready
  {
    if fds != [] {
      var n := |fds| - 1;
      ReadyClientsMembers(fds[..n], ready);
      assert fds == fds[..n] + [fds[n]];
    }
  }

  ghost predicate NoRepeats(s: seq<int>) {
    forall i, j :: 0 <= i < j < |s| ==> s[i] != s[j]
  }

  lemma {:induction false} ReadyClientsOnce(fds: seq<int>, ready: set<int>)
    requires forall i, j :: 0 <= i < j < |fds| && fds[i] > 0 ==> fds[i] != fds[j]
    ensures NoRepeats(ReadyClients(fds, ready))
  {
    if fds != [] {
      var n := |fds| - 1;
      ReadyClientsOnce(fds[..n], ready);
      ReadyClientsMembers(fds[..n], ready);
      assert fds[n] > 0 ==> fds[n] !in fds[..n];
    }
  }

  lemma {:induction false} DistinctCount(s: seq<int>, elements: set<int>)
    requires NoRepeats(s)
    requires forall x :: x in s <==> x in elements
    ensures |s| == |elements|
  {
    if s == [] {
      assert forall x :: x in elements ==> x in s;
    } else {
      var n := |s| - 1;
      assert s == s[..n] + [s[n]];
      DistinctCount(s[..n], elements - {s[n]});
    }
  }

  // So the count that select returns, less one for the listening descriptor, is the number of clients to serve.
  lemma ReadyCount(p: Pool, listenfd: int, t: Turn)
    requires Inv(p, listenfd) && Legal(p, t)
    ensures |ReadyClients(p.fds, t.ready)| == |t.ready| - if listenfd in t.ready then 1 else 0
  {
    ReadyClientsMembers(p.fds, t.ready);
    ReadyClientsOnce(p.fds, t.ready);
    DistinctCount(ReadyClients(p.fds, t.ready), t.ready - {listenfd});
  }

  // ---- the pool is never full while descriptors are within select's range ----

  ghost predicate InRange(p: Pool) { forall fd :: fd in p.readSet ==> fd < FD_SETSIZE }

  lemma {:induction false} SmallSet(xs: set<int>, n: nat)
    requires forall x :: x in xs ==> 0 <= x < n
    ensures |xs| <= n
  {
    if n == 0 {
      assert forall x :: x !in xs;
    } else {
      SmallSet(xs - {n - 1}, n - 1);
      assert n - 1 in xs ==> |xs| == |xs - {n - 1}| + 1;
      assert n - 1 !in xs ==> xs - {n - 1} == xs;
    }
  }

  // The clients, once each: all descriptors to select on but the listening one.
  lemma ClientCount(p: Pool, listenfd: int)
    requires Inv(p, listenfd)
    ensures |ReadyClients(p.fds, p.readSet)| == |p.readSet| - 1
  {
    ReadyClientsMembers(p.fds, p.readSet);
    ReadyClientsOnce(p.fds, p.readSet);
    DistinctCount(ReadyClients(p.fds, p.readSet), p.readSet - {listenfd});
  }

  lemma {:induction false} AllReady(fds: seq<int>, ready: set<int>)
    requires forall i :: 0 <= i < |fds| ==> fds[i] == -1 || (fds[i] > 0 && fds[i] in ready)
    ensures |ReadyClients(fds, ready)| <= |fds|
    ensures |ReadyClients(fds, ready)| == |fds| <==> FreeSlot(fds) == |fds|
  {
    if fds != [] {
      AllReady(fds[..|fds| - 1], ready);
    }
  }

  // A pool is full exactly when select watches one descriptor more than it has room for.
  lemma FullIff(p: Pool, listenfd: int)
    requires Inv(p, listenfd)
    ensures FreeSlot(p.fds) == |p.fds| <==> |p.readSet| == FD_SETSIZE + 1
  {
    ClientCount(p, listenfd);
    forall i | 0 <= i < |p.fds| && p.fds[i] > 0 ensures p.fds[i] in p.readSet {
      assert IsClient(p.fds, p.fds[i]);
    }
    AllReady(p.fds, p.readSet);
  }

  // So within select's range there is always a free slot, and every client is admitted.
  lemma NeverFull(p: Pool, listenfd: int, connfd: int)
    requires Inv(p, listenfd) && InRange(p)
    ensures FreeSlot(p.fds) < |p.fds|
    ensures connfd > 0 ==> IsClient(Admit(p, connfd).fds, connfd) && connfd in Admit(p, connfd).readSet
  {
    FullIff(p, listenfd);
    forall fd | fd in p.readSet ensures 0 <= fd < FD_SETSIZE {
      assert fd == listenfd || IsClient(p.fds, fd);
    }
    SmallSet(p.readSet, FD_SETSIZE);
    assert Admit(p, connfd).fds[FreeSlot(p.fds)] == connfd;
  }

  lemma {:induction false} StaysInRange(p: Pool, listenfd: int, turns: seq<Turn>)
    requires InRange(p) && forall i :: 0 <= i < |turns| ==> turns[i].connfd < FD_SETSIZE
    ensures InRange(After(p, listenfd, turns))
    decreases |turns|
  {
    if turns != [] {
      StaysInRange(Next(p, listenfd, turns[0]), listenfd, turns[1..]);
    }
  }

  lemma {:induction false} BeforeTurn(p: Pool, listenfd: int, turns: seq<Turn>, k: nat)
    requires LegalRun(p, listenfd, turns) && k < |turns|
    ensures LegalRun(p, listenfd, turns[..k]) && Legal(After(p, listenfd, turns[..k]), turns[k])
    decreases |turns|
  {
    if k > 0 {
      BeforeTurn(Next(p, listenfd, turns[0]), listenfd, turns[1..], k - 1);
      assert turns[..k][1..] == turns[1..][..k - 1];
    }
  }

  lemma EveryArrivalAdmitted(p: Pool, listenfd: int, turns: seq<Turn>, k: nat)
    requires Inv(p, listenfd) && InRange(p) && LegalRun(p, listenfd, turns) && k < |turns|
    requires forall i :: 0 <= i < |turns| ==> turns[i].connfd < FD_SETSIZE
    ensures listenfd in turns[k].ready ==>
      IsClient(Arrive(After(p, listenfd, turns[..k]), listenfd, turns[k]).fds, turns[k].connfd)
  {
    BeforeTurn(p, listenfd, turns, k);
    RunKeepsInv(p, listenfd, turns[..k]);
    StaysInRange(p, listenfd, turns[..k]);
    NeverFull(After(p, listenfd, turns[..k]), listenfd, turns[k].connfd);
  }

  // Clients in the first n slots only, numbered from the listening descriptor upwards.
  ghost predicate FilledUpTo(p: Pool, listenfd: int, n: nat) {
    && |p.fds| == FD_SETSIZE && n <= FD_SETSIZE
    && (forall i :: 0 <= i < FD_SETSIZE ==> p.fds[i] == if i < n then listenfd + 1 + i else -1)
    && (forall fd :: fd in p.readSet <==> listenfd <= fd <= listenfd + n)
  }

  lemma FillsOneMore(p: Pool, listenfd: int, n: nat)
    requires listenfd >= 0 && FilledUpTo(p, listenfd, n) && n < FD_SETSIZE
    ensures var t := Turn({listenfd}, listenfd + n + 1, {});
      Legal(p, t) && FilledUpTo(Next(p, listenfd, t), listenfd, n + 1)
  {
    var i := FreeSlot(p.fds);
    assert p.fds[n] == -1;
    assert i == n;
  }

  lemma {:induction false} FillsFrom(p: Pool, listenfd: int, n: nat) returns (turns: seq<Turn>)
    requires listenfd >= 0 && FilledUpTo(p, listenfd, n)
    ensures LegalRun(p, listenfd, turns) && FilledUpTo(After(p, listenfd, turns), listenfd, FD_SETSIZE)
    decreases FD_SETSIZE - n
  {
    if n == FD_SETSIZE {
      turns := [];
    } else {
      FillsOneMore(p, listenfd, n);
      var t := Turn({listenfd}, listenfd + n + 1, {});
      var more := FillsFrom(Next(p, listenfd, t), listenfd, n + 1);
      turns := [t] + more;
      assert turns[1..] == more;
    }
  }

  // Past that range a pool can fill up, and then it drops the next client without a word.
  lemma DroppedClient(p: Pool, listenfd: int, connfd: int) returns (turns: seq<Turn>)
    requires listenfd >= 0 && FilledUpTo(p, listenfd, 0)
    ensures LegalRun(p, listenfd, turns)
    ensures FreeSlot(After(p, listenfd, turns).fds) == FD_SETSIZE
    ensures Admit(After(p, listenfd, turns), connfd) == After(p, listenfd, turns)
  {
    turns := FillsFrom(p, listenfd, 0);
    var q := After(p, listenfd, turns);
    assert forall i :: 0 <= i < FD_SETSIZE ==> q.fds[i] >= 0;
  }

  // A client just admitted is not among the ready ones.
  lemma {:induction false} NewcomerNotReady(fds: seq<int>, ready: set<int>, i: nat, connfd: int)
    requires i < |fds| && fds[i] < 0 && connfd !in ready
    ensures ReadyClients(fds[i := connfd], ready) == ReadyClients(fds, ready)
  {
    var n, longer := |fds| - 1, fds[i := connfd];
    if i < n {
      NewcomerNotReady(fds[..n], ready, i, connfd);
      assert longer[..n] == fds[..n][i := connfd];
    } else {
      assert longer[..n] == fds[..n];
    }
  }

  lemma ArrivalNotReady(p: Pool, listenfd: int, t: Turn)
    requires Inv(p, listenfd) && Legal(p, t)
    ensures t.ready <= Arrive(p, listenfd, t).readSet
    ensures ReadyClients(Arrive(p, listenfd, t).fds, t.ready) == ReadyClients(p.fds, t.ready)
  {
    if listenfd in t.ready && FreeSlot(p.fds) < |p.fds| {
      NewcomerNotReady(p.fds, t.ready, FreeSlot(p.fds), t.connfd);
    }
  }

  // The clients served in a turn: every descriptor that was ready except the listening one, once each.
  lemma ServedExactly(p: Pool, listenfd: int, t: Turn)
    requires Inv(p, listenfd) && Legal(p, t)
    ensures NoRepeats(ReadyClients(p.fds, t.ready))
    ensures forall fd :: fd in ReadyClients(p.fds, t.ready) <==> fd in t.ready && fd != listenfd
  {
    ReadyClientsOnce(p.fds, t.ready);
    ReadyClientsMembers(p.fds, t.ready);
  }

  lemma {:induction false} ReadyClientsPrefix(fds: seq<int>, ready: set<int>, i: nat)
    requires i <= |fds|
    ensures ReadyClients(fds[..i], ready) <= ReadyClients(fds, ready)
    ensures (forall k :: i <= k < |fds| ==> fds[k] == -1) ==> ReadyClients(fds[..i], ready) == ReadyClients(fds, ready)
  {
    if i == |fds| {
      assert fds[..i] == fds;
    } else {
      var n := |fds| - 1;
      ReadyClientsPrefix(fds[..n], ready, i);
      assert fds[..n][..i] == fds[..i];
    }
  }

  // When all ready clients sit in the first i slots, the other slots do not change.
  lemma RestUnchanged(fds: seq<int>, t: Turn, i: nat)
    requires i <= |fds| && ReadyClients(fds[..i], t.ready) == ReadyClients(fds, t.ready)
    requires forall j, k :: 0 <= j < k < |fds| && fds[j] > 0 ==> fds[j] != fds[k]
    ensures forall k :: i <= k < |fds| ==> !Hangup(fds[k], t)
  {
    ReadyClientsMembers(fds, t.ready);
    ReadyClientsMembers(fds[..i], t.ready);
    forall k | i <= k < |fds| ensures !Hangup(fds[k], t) {
      assert fds[k] > 0 ==> fds[k] !in fds[..i];
      assert fds[k] > 0 ==> IsClient(fds, fds[k]);
    }
  }

  lemma ReadyClientsSnoc(fds: seq<int>, ready: set<int>, i: nat)
    requires i < |fds|
    ensures ReadyClients(fds[..i + 1], ready)
      == ReadyClients(fds[..i], ready) + if fds[i] > 0 && fds[i] in ready then [fds[i]] else []
    ensures forall fd :: fd in fds[..i + 1] <==> fd in fds[..i] || fd == fds[i]
  {
    assert fds[..i + 1][..i] == fds[..i];
    assert fds[..i + 1] == fds[..i] + [fds[i]];
  }

  // The descriptors and slots once every ready client has been found among the first i slots.
  lemma ServiceDone(p: Pool, listenfd: int, t: Turn, i: nat, fds: seq<int>, readSet: set<int>)
    requires Inv(p, listenfd) && t.ready <= p.readSet && i <= |p.fds| == |fds|
    requires ReadyClients(p.fds[..i], t.ready) == ReadyClients(p.fds, t.ready)
    requires forall k :: 0 <= k < i ==> fds[k] == if Hangup(p.fds[k], t) then -1 else p.fds[k]
    requires forall k :: i <= k < |fds| ==> fds[k] == p.fds[k]
    requires forall fd :: fd in readSet <==> fd in p.readSet && !(Hangup(fd, t) && fd in p.fds[..i])
    ensures fds == Remaining(p.fds, t) && readSet == p.readSet - (t.ready * t.closing - {listenfd})
  {
    RestUnchanged(p.fds, t, i);
    ReadyClientsMembers(p.fds, t.ready);
    ReadyClientsMembers(p.fds[..i], t.ready);
    forall fd ensures fd in readSet <==> fd in p.readSet - (t.ready * t.closing - {listenfd}) {
      if Hangup(fd, t) {
        assert IsClient(p.fds, fd) ==> fd in ReadyClients(p.fds, t.ready);
      }
    }
  }

  // ---- the server ----

  class Server {
    const listenfd: int
    const clientfd: array<int>
    var maxfd: int
    var readSet: set<int>
    var readySet: set<int>
    var nready: int
    var maxi: int

    ghost function State(): Pool
      reads this, clientfd
    {
      Pool(clientfd[..], readSet, maxfd, maxi)
    }

    ghost predicate Valid()
      reads this, clientfd
    {
      Inv(State(), listenfd)
    }

    // init_pool
    constructor (listenfd: int)
      requires listenfd >= 0
      ensures Valid() && this.listenfd == listenfd && fresh(clientfd)
      ensures readSet == {listenfd} && forall i :: 0 <= i < clientfd.Length ==> clientfd[i] == -1
    {
      this.listenfd := listenfd;
      maxi := -1;
      clientfd := new int[FD_SETSIZE](_ => -1);
      maxfd := listenfd;
      readSet := {listenfd};
      readySet := {};
      nready := 0;
    }

    // add_client: the first free slot takes the descriptor; a full pool drops it.
    method AddClient(connfd: int)
      requires Valid()
      modifies this`maxfd, this`readSet, this`nready, this`maxi, clientfd
      ensures nready == old(nready) - 1 && State() == Admit(old(State()), connfd)
    {
      nready := nready - 1;
      ghost var fds := clientfd[..];
      var i := 0;
      while i < FD_SETSIZE
        invariant 0 <= i <= FD_SETSIZE && clientfd[..] == fds
        invariant forall j :: 0 <= j < i ==> fds[j] >= 0
        invariant readSet == old(readSet) && maxfd == old(maxfd) && maxi == old(maxi)
      {
        if clientfd[i] < 0 {
          assert FreeSlot(fds) == i;
          clientfd[i] := connfd;
          readSet := readSet + {connfd};
          if connfd > maxfd {
            maxfd := connfd;
          }
          if i > maxi {
            maxi := i;
          }
          return;
        }
        // The test for too many clients.
        assert i != FD_SETSIZE;
        i := i + 1;
      }
    }

    // The loop of check_clients, which stops behind the last slot in use or when no ready client is left.
    method ServeReady(ghost t: Turn, closing: set<int>) returns (served: seq<int>, ghost i: nat)
      requires readySet == t.ready && closing == t.closing && -1 <= maxi < clientfd.Length
      requires nready == |ReadyClients(clientfd[..], readySet)|
      modifies this`readSet, this`nready, clientfd
      ensures i <= clientfd.Length && (i == maxi + 1 || nready <= 0)
      ensures served == ReadyClients(old(clientfd[..])[..i], readySet)
      ensures nready == |ReadyClients(old(clientfd[..]), readySet)| - |served|
      ensures forall k :: 0 <= k < i ==> clientfd[k] == if Hangup(old(clientfd[k]), t) then -1 else old(clientfd[k])
      ensures forall k :: i <= k < clientfd.Length ==> clientfd[k] == old(clientfd[k])
      ensures forall fd :: fd in readSet <==> fd in old(readSet) && !(Hangup(fd, t) && fd in old(clientfd[..])[..i])
    {
      served := [];
      ghost var fds := clientfd[..];
      var slot := 0;
      i := 0;
      while slot <= maxi && nready > 0
        invariant 0 <= i == slot <= maxi + 1
        invariant served == ReadyClients(fds[..i], readySet) && nready == |ReadyClients(fds, readySet)| - |served|
        invariant forall k :: 0 <= k < i ==> clientfd[k] == if Hangup(fds[k], t) then -1 else fds[k]
        invariant forall k :: i <= k < clientfd.Length ==> clientfd[k] == fds[k]
        invariant forall fd :: fd in readSet <==> fd in old(readSet) && !(Hangup(fd, t) && fd in fds[..i])
      {
        var connfd := clientfd[slot];
        ReadyClientsSnoc(fds, readySet, i);
        if connfd > 0 && connfd in readySet {
          nready := nready - 1;
          served := served + [connfd];
          if connfd in closing {
            readSet := readSet - {connfd};
            clientfd[slot] := -1;
          }
        }
        slot, i := slot + 1, i + 1;
      }
    }

    // check_clients, which reports the descriptors it served in order.
    method CheckClients(ghost t: Turn, closing: set<int>) returns (served: seq<int>)
      requires Valid() && readySet == t.ready && closing == t.closing && readySet <= readSet
      requires nready == |ReadyClients(clientfd[..], readySet)|
      modifies this`readSet, this`nready, clientfd
      ensures served == ReadyClients(old(clientfd[..]), readySet) && nready == 0
      ensures State() == Serve(old(State()), listenfd, t)
    {
      ghost var was := State();
      ghost var i;
      served, i := ServeReady(t, closing);
      ReadyClientsPrefix(was.fds, readySet, i);
      ServiceDone(was, listenfd, t, i, clientfd[..], readSet);
    }

    // select and accept
    method Wait(ghost t: Turn, ready: set<int>, connfd: int)
      requires Valid() && ready == t.ready && connfd == t.connfd
      modifies this, clientfd
      ensures State() == Arrive(old(State()), listenfd, t)
      ensures readySet == ready && nready == |ready| - if listenfd in ready then 1 else 0
    {
      readySet := ready;
      nready := |ready|;
      if listenfd in readySet {
        AddClient(connfd);
      }
    }

    // One turn of the loop in main.
    method TakeTurn(ghost t: Turn, ready: set<int>, connfd: int, closing: set<int>) returns (served: seq<int>)
      requires Valid() && Legal(State(), t) && t == Turn(ready, connfd, closing)
      modifies this, clientfd
      ensures Valid() && State() == Next(old(State()), listenfd, t) && nready == 0
      ensures served == ReadyClients(old(clientfd[..]), ready)
    {
      ghost var p := State();
      TurnKeepsInv(p, listenfd, t);
      ReadyCount(p, listenfd, t);
      ArrivalNotReady(p, listenfd, t);
      Wait(t, ready, connfd);
      served := CheckClients(t, closing);
    }

    // The loop in main, for any number of turns.
    method Loop(turns: seq<Turn>)
      requires Valid() && LegalRun(State(), listenfd, turns)
      modifies this, clientfd
      ensures Valid() && State() == After(old(State()), listenfd, turns)
    {
      var k := 0;
      while k < |turns|
        invariant 0 <= k <= |turns| && Valid() && LegalRun(State(), listenfd, turns[k..])
        invariant After(State(), listenfd, turns[k..]) == After(old(State()), listenfd, turns)
      {
        var t := turns[k];
        var served := TakeTurn(t, t.ready, t.connfd, t.closing);
        k := k + 1;
      }
    }
  }
}
