// The Rio package: buffered and unbuffered I/O over a kernel that transfers short and is interrupted at will.
module Rio {

  import opened Common

  const NEWLINE: Byte := 10
  const RIO_BUFSIZE := 8192
  const MAXLINE := 8192

  // What the kernel will do with its next read: move at most this many bytes but at least one,
  // return EINTR, or fail for good.
  datatype Outcome = Transfer(limit: nat) | Interrupted | Failed

  // And with its next write: move at most this many bytes, perhaps none, or fail; in both cases errno
  // may be EINTR, left over from an earlier call where nothing went wrong.
  datatype Sending = Sent(limit: nat, eintr: bool) | Refused(eintr: bool)
  {
    // rio_writen takes a call that moves nothing without EINTR for a failure.
    predicate Hopeless() { !eintr && (Refused? || limit == 0) }
  }

  function Rest<T>(script: seq<T>): seq<T> {
    if script == [] then [] else script[1..]
  }

  // How many of n bytes the next outcome moves when `available` can be moved.
  function Amount(script: seq<Outcome>, n: nat, available: nat): nat {
    var most := Min(n, available);
    if script != [] && script[0].Transfer? then Min(most, if script[0].limit == 0 then 1 else script[0].limit) else most
  }

  function NextWrite(script: seq<Sending>, n: nat): Sending { if script == [] then Sent(n, false) else script[0] }

  // One connection: bytes still to come, bytes sent, and the scripts that read and write follow.
  // Past the end of its script the kernel moves all it is asked to.
  class Kernel {
    var incoming: seq<Byte>
    var outgoing: seq<Byte>
    var readScript: seq<Outcome>
    var writeScript: seq<Sending>

    // read(fd, buf + off, n): the result and whether errno is EINTR.
    method Read(buf: array<Byte>, off: nat, n: nat) returns (r: int, eintr: bool)
      requires off + n <= buf.Length
      modifies this`incoming, this`readScript, buf
      ensures readScript == Rest(old(readScript))
      ensures r < 0 ==> r == -1 && old(readScript) != [] && eintr == old(readScript)[0].Interrupted? && old(readScript)[0] == (if eintr then Interrupted else Failed)
      ensures r < 0 ==> incoming == old(incoming) && buf[..] == old(buf[..])
      ensures r >= 0 ==> r == Amount(old(readScript), n, |old(incoming)|)
      ensures r >= 0 ==> incoming == old(incoming)[r..]
      ensures r >= 0 ==> buf[..] == old(buf[..off]) + old(incoming)[..r] + old(buf[off + Amount(readScript, n, |incoming|)..])
    {
      eintr := false;
      if readScript != [] && !readScript[0].Transfer? {
        eintr := readScript[0].Interrupted?;
        r := -1;
      } else {
        r := Amount(readScript, n, |incoming|);
        forall i | 0 <= i < r {
          buf[off + i] := incoming[i];
        }
        incoming := incoming[r..];
      }
      readScript := Rest(readScript);
    }

    // write(fd, buf + off, n).
    method Write(buf: array<Byte>, off: nat, n: nat) returns (r: int, eintr: bool)
      requires off + n <= buf.Length
      modifies this`outgoing, this`writeScript
      ensures writeScript == Rest(old(writeScript)) && eintr == NextWrite(old(writeScript), n).eintr
      ensures r == if NextWrite(old(writeScript), n).Refused? then -1 else Min(n, NextWrite(old(writeScript), n).limit)
      ensures outgoing == old(outgoing) + if r < 0 then [] else buf[off..off + r]
    {
      var next := NextWrite(writeScript, n);
      eintr, r := next.eintr, -1;
      if next.Sent? {
        r := Min(n, next.limit);
        outgoing := outgoing + buf[off..off + r];
      }
      writeScript := Rest(writeScript);
    }
  }

  // A run of calls left the script with an end of what it was.
  predicate Later<T(==)>(script: seq<T>, before: seq<T>) {
    |script| <= |before| && script == before[|before| - |script|..]
  }

  // A read into the front of a buffer splits what was coming.
  lemma JustRead(buf: seq<Byte>, before: seq<Byte>, coming: seq<Byte>, r: nat)
    requires r <= |coming| && r <= |before| && buf == before[..0] + coming[..r] + before[r..]
    ensures buf[0..r] + coming[r..] == coming
  {
    assert buf[0..r] == coming[..r];
  }

  // Buffered reader: the internal buffer, its unread part, and the descriptor.
  class Rio {
    const fd: Kernel
    const rioBuf: array<Byte>
    var rioCnt: int
    var rioBufptr: nat

    ghost predicate Valid()
      reads this
    {
      rioBuf.Length == RIO_BUFSIZE && rioBufptr <= RIO_BUFSIZE && rioCnt <= RIO_BUFSIZE - rioBufptr
    }

    // Bytes not yet delivered: the unread part of the buffer, then what the kernel still has.
    ghost function Stream(): seq<Byte>
      requires Valid()
      reads this, rioBuf, fd
    {
      (if rioCnt > 0 then rioBuf[rioBufptr..rioBufptr + rioCnt] else []) + fd.incoming
    }

    // rio_readinitb
    constructor (fd: Kernel)
      ensures Valid() && this.fd == fd && fresh(rioBuf) && Stream() == fd.incoming
    {
      this.fd := fd;
      rioBuf := new Byte[RIO_BUFSIZE](_ => 0);
      rioCnt, rioBufptr := 0, 0;
    }

    // Refill the internal buffer until it is not empty, the stream has ended, or read has failed.
    method Refill() returns (status: int)
      requires Valid()
      modifies this, rioBuf, fd`incoming, fd`readScript
      ensures Valid() && Stream() == old(Stream()) && Later(fd.readScript, old(fd.readScript))
      ensures status > 0 ==> rioCnt > 0
      ensures status == 0 ==> Stream() == []
      ensures status < 0 ==> status == -1 && Failed in old(fd.readScript)
    {
      while rioCnt <= 0
        invariant Valid() && Stream() == old(Stream()) && Later(fd.readScript, old(fd.readScript))
        decreases |fd.readScript|, rioCnt <= 0
      {
        var eintr := FillOnce();
        if rioCnt < 0 {
          if !eintr {
            return -1;
          }
        } else if rioCnt == 0 {
          return 0;
        }
      }
      return 1;
    }

    // One read into the empty buffer.
    method FillOnce() returns (eintr: bool)
      requires Valid() && rioCnt <= 0
      modifies this, rioBuf, fd`incoming, fd`readScript
      ensures Valid() && Stream() == old(Stream()) && fd.readScript == Rest(old(fd.readScript))
      ensures rioCnt == 0 ==> Stream() == []
      ensures rioCnt < 0 ==> old(fd.readScript) != [] && (eintr || old(fd.readScript)[0] == Failed)
    {
      ghost var before, coming := rioBuf[..], fd.incoming;
      var r;
      r, eintr := fd.Read(rioBuf, 0, RIO_BUFSIZE);
      rioCnt := r;
      if r > 0 {
        rioBufptr := 0;
        JustRead(rioBuf[..], before, coming, r);
      }
    }

    // rio_read: up to n bytes, at least one unless the stream has ended.
    method Read(usrbuf: array<Byte>, off: nat, n: nat) returns (rc: int)
      requires Valid() && usrbuf != rioBuf && off + n <= usrbuf.Length
      modifies this, rioBuf, usrbuf, fd`incoming, fd`readScript
      ensures Valid() && Later(fd.readScript, old(fd.readScript))
      ensures rc < 0 ==> rc == -1 && Failed in old(fd.readScript) && Stream() == old(Stream()) && usrbuf[..] == old(usrbuf[..])
      ensures rc >= 0 ==>
        && rc <= n && rc <= |old(Stream())| && (n > 0 && old(Stream()) != [] ==> rc > 0)
        && Stream() == old(Stream())[rc..]
        && usrbuf[..off] == old(usrbuf[..off]) && usrbuf[off..off + rc] == old(Stream())[..rc]
    {
      var status := Refill();
      if status <= 0 {
        return status;
      }
      rc := Deliver(usrbuf, off, n);
    }

    // The second half of rio_read: copy min(n, rioCnt) bytes out of the internal buffer.
    method Deliver(usrbuf: array<Byte>, off: nat, n: nat) returns (cnt: nat)
      requires Valid() && usrbuf != rioBuf && off + n <= usrbuf.Length && rioCnt > 0
      modifies this, usrbuf
      ensures Valid() && cnt == Min(n, old(rioCnt)) && cnt <= |old(Stream())|
      ensures Stream() == old(Stream())[cnt..]
      ensures usrbuf[..off] == old(usrbuf[..off]) && usrbuf[off..off + cnt] == old(Stream())[..cnt]
    {
      cnt := n;
      if rioCnt < n {
        cnt := rioCnt;
      }
      ghost var unread := rioBuf[rioBufptr..rioBufptr + rioCnt];
      forall i | 0 <= i < cnt {
        usrbuf[off + i] := rioBuf[rioBufptr + i];
      }
      assert usrbuf[off..off + cnt] == unread[..cnt];
      rioBufptr := rioBufptr + cnt;
      rioCnt := rioCnt - cnt;
      assert Stream() == unread[cnt..] + fd.incoming;
    }

    // rio_read of a single char.
    method ReadChar() returns (rc: int, c: Byte)
      requires Valid()
      modifies this, rioBuf, fd`incoming, fd`readScript
      ensures Valid() && Later(fd.readScript, old(fd.readScript))
      ensures rc == 1 || rc == 0 || rc == -1
      ensures rc == 1 ==> old(Stream()) != [] && c == old(Stream())[0] && Stream() == old(Stream())[1..]
      ensures rc == 0 ==> Stream() == old(Stream()) == []
      ensures rc < 0 ==> Failed in old(fd.readScript) && Stream() == old(Stream())
    {
      var cell := new Byte[1](_ => 0);
      rc := Read(cell, 0, 1);
      c := cell[0];
      assert rc == 1 ==> cell[0] == cell[0..1][0] == old(Stream())[..1][0];
    }

    // rio_readnb: exactly n bytes, or all there are. got counts the bytes delivered even on failure.
    method Readnb(usrbuf: array<Byte>, n: nat) returns (rc: int, ghost got: nat)
      requires Valid() && usrbuf != rioBuf && n <= usrbuf.Length
      modifies this, rioBuf, usrbuf, fd`incoming, fd`readScript
      ensures Valid() && Later(fd.readScript, old(fd.readScript))
      ensures got <= n && got <= |old(Stream())|
      ensures Stream() == old(Stream())[got..] && usrbuf[..got] == old(Stream())[..got]
      ensures rc >= 0 ==> rc == got == Min(n, |old(Stream())|)
      ensures rc < 0 ==> rc == -1 && Failed in old(fd.readScript)
    {
      var nleft := n;
      got := 0;
      ghost var start := Stream();
      while nleft > 0
        invariant 0 <= nleft <= n && got == n - nleft <= |start|
        invariant Valid() && Later(fd.readScript, old(fd.readScript))
        invariant Stream() == start[got..] && usrbuf[..got] == start[..got]
        decreases nleft
      {
        var nread := Read(usrbuf, n - nleft, nleft);
        if nread < 0 {
          return -1, got;
        } else if nread == 0 {
          break;
        }
        assert start[..got + nread] == start[..got] + start[got..][..nread];
        assert usrbuf[..got + nread] == usrbuf[..got] + usrbuf[got..got + nread];
        nleft := nleft - nread;
        got := got + nread;
      }
      return n - nleft, got;
    }

    // The loop of rio_readlineb: last is 1 unless the stream ended (0) or read failed (-1).
    method CopyLine(usrbuf: array<Byte>, maxlen: nat) returns (last: int, got: nat)
      requires Valid() && usrbuf != rioBuf && 1 <= maxlen <= usrbuf.Length
      modifies this, rioBuf, usrbuf, fd`incoming, fd`readScript
      ensures Valid() && Later(fd.readScript, old(fd.readScript))
      ensures got <= |old(Stream())| && got < maxlen
      ensures Stream() == old(Stream())[got..] && usrbuf[..got] == old(Stream())[..got]
      ensures last == 0 ==> Stream() == []
      ensures last >= 0 ==> IsLine(old(Stream()), maxlen - 1, got)
      ensures last < 0 ==> Failed in old(fd.readScript)
    {
      last, got := 1, 0;
      ghost var start := Stream();
      while got + 1 < maxlen
        invariant got < maxlen && got <= |start|
        invariant Valid() && Later(fd.readScript, old(fd.readScript))
        invariant Stream() == start[got..] && usrbuf[..got] == start[..got]
        invariant forall i :: 0 <= i < got ==> start[i] != NEWLINE
      {
        var rc, c := ReadChar();
        if rc != 1 {
          last := rc;
          break;
        }
        usrbuf[got] := c;
        assert start[got..][1..] == start[got + 1..];
        got := got + 1;
        if c == NEWLINE {
          break;
        }
      }
    }

    // rio_readlineb: a text line of at most maxlen - 1 bytes, and a terminating NUL.
    method Readlineb(usrbuf: array<Byte>, maxlen: nat) returns (rc: int, ghost got: nat)
      requires Valid() && usrbuf != rioBuf && 1 <= maxlen <= usrbuf.Length
      modifies this, rioBuf, usrbuf, fd`incoming, fd`readScript
      ensures Valid() && Later(fd.readScript, old(fd.readScript))
      ensures got <= |old(Stream())| && got < maxlen
      ensures Stream() == old(Stream())[got..] && usrbuf[..got] == old(Stream())[..got]
      ensures rc >= 0 ==> rc == got == LineLength(old(Stream()), maxlen - 1) && (rc > 0 ==> usrbuf[rc] == 0)
      ensures rc < 0 ==> rc == -1 && Failed in old(fd.readScript)
    {
      var last, count := CopyLine(usrbuf, maxlen);
      got := count;
      if last < 0 {
        return -1, got;
      }
      LineLengthMeaning(old(Stream()), maxlen - 1, got);
      if last == 0 && count == 0 {
        return 0, 0;
      }
      ghost var line := usrbuf[..got];
      usrbuf[count] := 0;
      assert usrbuf[..got] == line;
      return count, got;
    }
  }

  // Length of the first line of s, cut off at cap bytes.
  function LineLength(s: seq<Byte>, cap: nat): (n: nat)
    ensures n <= cap && n <= |s|
  {
    if s == [] || cap == 0 then 0
    else if s[0] == NEWLINE then 1
    else 1 + LineLength(s[1..], cap - 1)
  }

  // The shortest prefix that ends in a newline, or the longest allowed one if there is none.
  ghost predicate IsLine(s: seq<Byte>, cap: nat, n: nat) {
    && n <= cap && n <= |s|
    && (forall i :: 0 <= i < n - 1 ==> s[i] != NEWLINE)
    && (n == cap || n == |s| || (n > 0 && s[n - 1] == NEWLINE))
  }

  lemma {:induction false} LineLengthMeaning(s: seq<Byte>, cap: nat, n: nat)
    ensures n == LineLength(s, cap) <==> IsLine(s, cap, n)
  {
    if s != [] && cap > 0 && s[0] != NEWLINE && n > 0 {
      LineLengthMeaning(s[1..], cap - 1, n - 1);
    }
  }

  // rio_readn: the unbuffered version of Readnb.
  method Readn(fd: Kernel, usrbuf: array<Byte>, n: nat) returns (rc: int, ghost got: nat)
    requires n <= usrbuf.Length
    modifies usrbuf, fd`incoming, fd`readScript
    ensures got <= n && got <= |old(fd.incoming)|
    ensures fd.incoming == old(fd.incoming)[got..] && usrbuf[..got] == old(fd.incoming)[..got]
    ensures rc >= 0 ==> rc == got == Min(n, |old(fd.incoming)|)
    ensures rc < 0 ==> rc == -1 && Failed in old(fd.readScript)
  {
    var nleft := n;
    got := 0;
    ghost var start := fd.incoming;
    while nleft > 0
      invariant 0 <= nleft <= n && got == n - nleft <= |start|
      invariant Later(fd.readScript, old(fd.readScript))
      invariant fd.incoming == start[got..] && usrbuf[..got] == start[..got]
      decreases nleft, |fd.readScript|
    {
      var nread, eintr := fd.Read(usrbuf, n - nleft, nleft);
      if nread < 0 {
        if eintr {
          nread := 0;
        } else {
          return -1, got;
        }
      } else if nread == 0 {
        break;
      }
      assert start[..got + nread] == start[..got] + start[got..][..nread];
      nleft := nleft - nread;
      got := got + nread;
    }
    return n - nleft, got;
  }

  // Some write of the script is a failure for rio_writen.
  predicate GivesUp(script: seq<Sending>) { exists k :: 0 <= k < |script| && script[k].Hopeless() }

  // rio_writen: all n bytes, in order and once each, unless write fails for good after `sent` bytes.
  method Writen(fd: Kernel, usrbuf: array<Byte>, n: nat) returns (rc: int, ghost sent: nat)
    requires n <= usrbuf.Length
    modifies fd`outgoing, fd`writeScript
    ensures Later(fd.writeScript, old(fd.writeScript))
    ensures sent <= n && fd.outgoing == old(fd.outgoing) + usrbuf[..sent]
    ensures rc >= 0 ==> rc == sent == n
    ensures rc < 0 ==> rc == -1 && GivesUp(old(fd.writeScript))
  {
    var nleft := n;
    sent := 0;
    while nleft > 0
      invariant 0 <= nleft <= n && sent == n - nleft
      invariant Later(fd.writeScript, old(fd.writeScript))
      invariant fd.outgoing == old(fd.outgoing) + usrbuf[..sent]
      decreases nleft, |fd.writeScript|
    {
      var nwritten, eintr := fd.Write(usrbuf, n - nleft, nleft);
      if nwritten <= 0 {
        if eintr {
          nwritten := 0;
        } else {
          return -1, sent;
        }
      }
      assert usrbuf[..sent + nwritten] == usrbuf[..sent] + usrbuf[sent..sent + nwritten];
      nleft := nleft - nwritten;
      sent := sent + nwritten;
    }
    return n, sent;
  }

  // One turn of echo's loop: read a line, write it back.
  method EchoLine(rio: Rio, buf: array<Byte>) returns (n: int, ghost moved: nat)
    requires rio.Valid() && buf != rio.rioBuf && buf.Length == MAXLINE
    modifies rio, rio.rioBuf, rio.fd, buf
    ensures rio.Valid() && Later(rio.fd.readScript, old(rio.fd.readScript)) && Later(rio.fd.writeScript, old(rio.fd.writeScript))
    ensures moved <= |old(rio.Stream())| && rio.fd.outgoing == old(rio.fd.outgoing) + old(rio.Stream())[..moved]
    ensures n >= 0 ==> n == moved && rio.Stream() == old(rio.Stream())[moved..]
    ensures n == 0 ==> old(rio.Stream()) == []
    ensures n < 0 ==> Failed in old(rio.fd.readScript) || GivesUp(old(rio.fd.writeScript))
  {
    ghost var line, got := rio.Stream(), 0;
    n, got := rio.Readlineb(buf, MAXLINE);
    moved := 0;
    if n > 0 {
      var rc, sent := Writen(rio.fd, buf, n);
      assert buf[..sent] == line[..sent];
      moved := sent;
      if rc < 0 {
        n := -1;
      }
    } else if n == 0 {
      LineLengthMeaning(line, MAXLINE - 1, 0);
    }
  }

  lemma SentInParts(sent: seq<Byte>, total: seq<Byte>, p: nat, m: nat)
    requires p <= |total| && m <= |total| - p
    ensures sent + total[..p] + total[p..][..m] == sent + total[..p + m]
    ensures total[p..][m..] == total[p + m..]
  {
    assert total[..p] + total[p..][..m] == total[..p + m];
    assert sent + total[..p] + total[p..][..m] == sent + (total[..p] + total[p..][..m]);
  }

  // echo on a fresh connection: everything received up to the end of the stream is sent back, in
  // order and once each, however reads and writes are cut up. Without hard errors it never stops early.
  method Echo(fd: Kernel) returns (ok: bool, ghost echoed: nat)
    modifies fd
    ensures echoed <= |old(fd.incoming)| && fd.outgoing == old(fd.outgoing) + old(fd.incoming)[..echoed]
    ensures ok ==> echoed == |old(fd.incoming)| && fd.incoming == []
    ensures !ok ==> Failed in old(fd.readScript) || GivesUp(old(fd.writeScript))
  {
    var rio := new Rio(fd);
    var buf := new Byte[MAXLINE](_ => 0);
    echoed := 0;
    ghost var total := fd.incoming;
    while true
      invariant rio.Valid() && rio.fd == fd && fresh(rio) && fresh(rio.rioBuf) && fresh(buf) && buf != rio.rioBuf
      invariant 0 <= echoed <= |total| && rio.Stream() == total[echoed..]
      invariant fd.outgoing == old(fd.outgoing) + total[..echoed]
      invariant Later(fd.readScript, old(fd.readScript)) && Later(fd.writeScript, old(fd.writeScript))
      decreases |total| - echoed
    {
      var n, moved := EchoLine(rio, buf);
      SentInParts(old(fd.outgoing), total, echoed, moved);
      echoed := echoed + moved;
      if n <= 0 {
        return n == 0, echoed;
      }
    }
  }

  // A mix of buffered calls on one connection.
  datatype Call = ReadBytes(n: nat) | ReadLine(maxlen: nat)

  function Taken(stream: seq<Byte>, call: Call): (n: nat)
    ensures n <= |stream|
  {
    match call
    case ReadBytes(n) => Min(n, |stream|)
    case ReadLine(maxlen) => LineLength(stream, if maxlen == 0 then 0 else maxlen - 1)
  }

  // What is left of the stream after some calls, and what each of them delivered: functions of
  // the stream alone.
  function Remaining(stream: seq<Byte>, calls: seq<Call>): seq<Byte> {
    if calls == [] then stream
    else
      var rest := Remaining(stream, calls[..|calls| - 1]);
      rest[Taken(rest, calls[|calls| - 1])..]
  }

  function Serve(stream: seq<Byte>, calls: seq<Call>): seq<seq<Byte>> {
    if calls == [] then []
    else
      var rest := Remaining(stream, calls[..|calls| - 1]);
      Serve(stream, calls[..|calls| - 1]) + [rest[..Taken(rest, calls[|calls| - 1])]]
  }

  function Flatten(parts: seq<seq<Byte>>): seq<Byte> {
    if parts == [] then [] else Flatten(parts[..|parts| - 1]) + parts[|parts| - 1]
  }

  // Nothing is lost, repeated or reordered.
  lemma {:induction false} ServeConserves(stream: seq<Byte>, calls: seq<Call>)
    ensures Flatten(Serve(stream, calls)) + Remaining(stream, calls) == stream
  {
    if calls != [] {
      var front := calls[..|calls| - 1];
      ServeConserves(stream, front);
      var rest := Remaining(stream, front);
      var n := Taken(rest, calls[|calls| - 1]);
      assert (Serve(stream, front) + [rest[..n]])[..|Serve(stream, front)|] == Serve(stream, front);
      assert rest == rest[..n] + rest[n..];
    }
  }

  // Reads do not depend on chunking: for every script of short reads and interruptions the calls
  // deliver the same bytes, and a call that fails loses none: partial is what it delivered.
  method RunCalls(rio: Rio, calls: seq<Call>) returns (ok: bool, results: seq<seq<Byte>>, ghost partial: seq<Byte>)
    requires rio.Valid() && forall i :: 0 <= i < |calls| && calls[i].ReadLine? ==> calls[i].maxlen >= 1
    modifies rio, rio.rioBuf, rio.fd`incoming, rio.fd`readScript
    ensures rio.Valid() && |results| <= |calls|
    ensures results == Serve(old(rio.Stream()), calls[..|results|])
    ensures partial + rio.Stream() == Remaining(old(rio.Stream()), calls[..|results|])
    ensures ok ==> |results| == |calls| && partial == []
    ensures !ok ==> Failed in old(rio.fd.readScript)
  {
    results, partial := [], [];
    ghost var start := rio.Stream();
    var i := 0;
    while i < |calls|
      invariant 0 <= i == |results| <= |calls| && rio.Valid()
      invariant Later(rio.fd.readScript, old(rio.fd.readScript))
      invariant results == Serve(start, calls[..i])
      invariant rio.Stream() == Remaining(start, calls[..i])
    {
      assert calls[..i + 1][..i] == calls[..i];
      var rc, data, part := OneCall(rio, calls[i]);
      if rc < 0 {
        return false, results, part;
      }
      results := results + [data];
      i := i + 1;
    }
    return true, results, [];
  }

  method Perform(rio: Rio, call: Call, usrbuf: array<Byte>) returns (rc: int, ghost got: nat)
    requires rio.Valid() && usrbuf != rio.rioBuf
    requires if call.ReadBytes? then call.n <= usrbuf.Length else 1 <= call.maxlen <= usrbuf.Length
    modifies rio, rio.rioBuf, usrbuf, rio.fd`incoming, rio.fd`readScript
    ensures rio.Valid() && Later(rio.fd.readScript, old(rio.fd.readScript))
    ensures got <= |old(rio.Stream())| && got <= usrbuf.Length
    ensures rio.Stream() == old(rio.Stream())[got..] && usrbuf[..got] == old(rio.Stream())[..got]
    ensures rc >= 0 ==> rc == got == Taken(old(rio.Stream()), call)
    ensures rc < 0 ==> Failed in old(rio.fd.readScript)
  {
    if call.ReadBytes? {
      rc, got := rio.Readnb(usrbuf, call.n);
    } else {
      rc, got := rio.Readlineb(usrbuf, call.maxlen);
    }
  }

  method OneCall(rio: Rio, call: Call) returns (rc: int, data: seq<Byte>, ghost part: seq<Byte>)
    requires rio.Valid() && (call.ReadLine? ==> call.maxlen >= 1)
    modifies rio, rio.rioBuf, rio.fd`incoming, rio.fd`readScript
    ensures rio.Valid() && Later(rio.fd.readScript, old(rio.fd.readScript))
    ensures part + rio.Stream() == old(rio.Stream())
    ensures rc >= 0 ==> data == part == old(rio.Stream())[..Taken(old(rio.Stream()), call)]
    ensures rc >= 0 ==> rio.Stream() == old(rio.Stream())[Taken(old(rio.Stream()), call)..]
    ensures rc < 0 ==> Failed in old(rio.fd.readScript)
  {
    var usrbuf := new Byte[if call.ReadBytes? then call.n else call.maxlen](_ => 0);
    ghost var start, got := rio.Stream(), 0;
    rc, got := Perform(rio, call, usrbuf);
    part := start[..got];
    data := if rc >= 0 then usrbuf[..rc] else [];
    assert start == start[..got] + start[got..];
  }
}
