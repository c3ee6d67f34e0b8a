// What the blocks of a trace of requests are, by the trace alone: the driver's operations on values.
module Ledger {
  import opened Common
  import opened Heap
  import R = RangeList

  datatype Op =
    | Alloc(index: nat, size: nat)
    | Realloc(index: nat, size: nat)
    | Free(index: nat)
  {
    // Bytes of heap the request takes.
    function Demand(): nat { if Free? then 0 else Align(size + HEADER) }

    // The request passes the driver's comparison of copied bytes: the byte it compares with,
    // read as a char, is the byte itself.
    predicate Comparable(charSigned: bool) { Realloc? && charSigned ==> index % 256 < 128 }
  }

  // Blocks not yet freed, newest first; the block of each id; words of heap in use.
  datatype Ledger = Ledger(live: seq<Block>, byId: map<nat, Block>, words: nat)

  function Without(live: seq<Block>, b: Block): (rest: seq<Block>)
    ensures forall c :: c in rest ==> c in live
    ensures forall c :: c in live && c != b ==> c in rest
  {
    if live == [] then []
    else
      var n := |live| - 1;
      if live[n] == b then live[..n] else Without(live[..n], b) + [live[n]]
  }

  // Sizes are positive ints, and only an id that has a block is reallocated or freed.
  predicate Permitted(l: Ledger, op: Op, numIds: nat) {
    && op.index < numIds
    && (op.Free? || 0 < op.size < 0x8000_0000)
    && (op.Alloc? || op.index in l.byId)
  }

  function Push(l: Ledger, index: nat, b: Block): Ledger {
    Ledger([b] + l.live, l.byId[index := b], b.Next())
  }

  function Release(l: Ledger, index: nat): Ledger {
    if index !in l.byId then l
    else Ledger(Without(l.live, l.byId[index]), l.byId - {index}, l.words)
  }

  function Next(l: Ledger, op: Op): Ledger {
    match op
    case Alloc(index, size) => Push(l, index, Block(l.words, size))
    case Realloc(index, size) => Push(Release(l, index), index, Block(l.words, size))
    case Free(index) => Release(l, index)
  }

  const EMPTY := Ledger([], map[], 0)

  function After(ops: seq<Op>): Ledger {
    if ops == [] then EMPTY else Next(After(ops[..|ops| - 1]), ops[|ops| - 1])
  }

  predicate Acceptable(ops: seq<Op>, numIds: nat) {
    ops == [] || (
      var front := ops[..|ops| - 1];
      Acceptable(front, numIds) && Permitted(After(front), ops[|ops| - 1], numIds))
  }

  function Demand(ops: seq<Op>): nat {
    if ops == [] then 0 else Demand(ops[..|ops| - 1]) + ops[|ops| - 1].Demand()
  }

  lemma OpsSnoc(ops: seq<Op>, op: Op, numIds: nat)
    ensures After(ops + [op]) == Next(After(ops), op) && Demand(ops + [op]) == Demand(ops) + op.Demand()
    ensures Acceptable(ops + [op], numIds) <==> Acceptable(ops, numIds) && Permitted(After(ops), op, numIds)
  {
    assert (ops + [op])[..|ops|] == ops;
  }

  predicate AllComparable(ops: seq<Op>, charSigned: bool) {
    ops == [] || (AllComparable(ops[..|ops| - 1], charSigned) && ops[|ops| - 1].Comparable(charSigned))
  }

  lemma {:induction false} AllComparableIff(ops: seq<Op>, charSigned: bool)
    ensures AllComparable(ops, charSigned) <==>
              forall i :: 0 <= i < |ops| && ops[i].Realloc? && charSigned ==> ops[i].index % 256 < 128
  {
    if ops != [] {
      var n := |ops| - 1;
      AllComparableIff(ops[..n], charSigned);
      assert forall i :: 0 <= i < n ==> ops[..n][i] == ops[i];
    }
  }

  // The first n requests fit in the heap and pass the comparison.
  predicate Passes(ops: seq<Op>, n: nat, charSigned: bool)
    requires n <= |ops|
  {
    Demand(ops[..n]) <= MAX_HEAP && AllComparable(ops[..n], charSigned)
  }

  // Newer blocks begin where older ones have ended.
  ghost predicate Descending(live: seq<Block>, words: nat) {
    live == [] || (
      var n := |live| - 1;
      live[n].Next() <= Floor(live[..n], words) && Descending(live[..n], words))
  }

  // Where the oldest of some blocks begins.
  function Floor(live: seq<Block>, words: nat): nat {
    if live == [] then words else live[|live| - 1].first
  }

  lemma {:induction false} DescendingAt(live: seq<Block>, words: nat, i: nat, j: nat)
    requires Descending(live, words) && i <= j < |live|
    ensures live[j].Next() <= words && (i < j ==> live[j].Next() <= live[i].first)
  {
    var n := |live| - 1;
    if j < n {
      DescendingAt(live[..n], words, i, j);
    } else if 0 < n {
      DescendingAt(live[..n], words, if i < n then i else n - 1, n - 1);
    }
  }

  lemma DescendsBelow(live: seq<Block>, words: nat, b: Block)
    requires Descending(live, words) && b in live
    ensures b.Next() <= words
  {
    var i :| 0 <= i < |live| && live[i] == b;
    DescendingAt(live, words, i, i);
  }

  lemma {:induction false} DescendingCons(live: seq<Block>, words: nat, b: Block)
    requires Descending(live, words) && b.first == words
    ensures Descending([b] + live, b.Next())
  {
    if live != [] {
      var n := |live| - 1;
      DescendingCons(live[..n], words, b);
      assert ([b] + live)[..n + 1] == [b] + live[..n];
    }
  }

  ghost predicate Sound(l: Ledger) {
    && Descending(l.live, l.words)
    && (forall id :: id in l.byId ==> l.byId[id] in l.live)
    && (forall id, id' :: id in l.byId && id' in l.byId && id != id' ==> l.byId[id] != l.byId[id'])
  }

  lemma {:induction false} WithoutDescends(live: seq<Block>, b: Block, words: nat)
    requires Descending(live, words)
    ensures Descending(Without(live, b), words) && b !in Without(live, b)
    ensures Floor(live, words) <= Floor(Without(live, b), words)
  {
    if live != [] {
      var n := |live| - 1;
      WithoutDescends(live[..n], b, words);
      if live[n] == b {
        if b in live[..n] {
          var i :| 0 <= i < n && live[..n][i] == b;
          DescendingAt(live, words, i, n);
        }
      } else {
        assert Without(live, b)[..|Without(live, b)| - 1] == Without(live[..n], b);
      }
    }
  }

  lemma SoundPush(l: Ledger, index: nat, b: Block)
    requires Sound(l) && b.first == l.words <= b.Next()
    ensures Sound(Push(l, index, b))
  {
    DescendingCons(l.live, l.words, b);
    forall id | id in l.byId ensures l.byId[id] != b {
      DescendsBelow(l.live, l.words, l.byId[id]);
    }
  }

  lemma SoundRelease(l: Ledger, index: nat)
    requires Sound(l) && index in l.byId
    ensures Sound(Release(l, index))
  {
    WithoutDescends(l.live, l.byId[index], l.words);
  }

  lemma SoundNext(l: Ledger, op: Op)
    requires Sound(l) && (op.Alloc? || op.index in l.byId)
    ensures Sound(Next(l, op))
  {
    if !op.Alloc? {
      SoundRelease(l, op.index);
    }
    if !op.Free? {
      SoundPush(if op.Alloc? then l else Release(l, op.index), op.index, Block(l.words, op.size));
    }
  }

  lemma NextDemand(l: Ledger, op: Op)
    ensures 8 * Next(l, op).words == 8 * l.words + op.Demand()
  {
    if !op.Free? {
      WordsAreAligned(op.size);
    }
  }

  lemma {:induction false} SoundAfter(ops: seq<Op>, numIds: nat)
    requires Acceptable(ops, numIds)
    ensures Sound(After(ops)) && 8 * After(ops).words == Demand(ops)
  {
    if ops != [] {
      var front := ops[..|ops| - 1];
      SoundAfter(front, numIds);
      SoundNext(After(front), ops[|ops| - 1]);
      NextDemand(After(front), ops[|ops| - 1]);
    }
  }

  lemma {:induction false} AcceptablePrefix(ops: seq<Op>, numIds: nat, i: nat)
    requires Acceptable(ops, numIds) && i <= |ops|
    ensures Acceptable(ops[..i], numIds)
  {
    if i < |ops| {
      AcceptablePrefix(ops[..|ops| - 1], numIds, i);
      assert ops[..|ops| - 1][..i] == ops[..i];
    } else {
      assert ops[..i] == ops;
    }
  }

  // What is known before and after request number i of a trace.
  lemma AtRequest(ops: seq<Op>, numIds: nat, i: nat)
    requires Acceptable(ops, numIds) && i < |ops|
    ensures Permitted(After(ops[..i]), ops[i], numIds) && After(ops[..i + 1]) == Next(After(ops[..i]), ops[i])
    ensures 8 * After(ops[..i]).words == Demand(ops[..i]) && 8 * After(ops[..i + 1]).words == Demand(ops[..i + 1])
  {
    AcceptablePrefix(ops, numIds, i);
    AcceptablePrefix(ops, numIds, i + 1);
    SoundAfter(ops[..i], numIds);
    SoundAfter(ops[..i + 1], numIds);
    assert ops[..i + 1][..i] == ops[..i];
  }

  // How what a trace demands grows with request number i.
  lemma {:induction false} OneMoreRequest(ops: seq<Op>, i: nat, charSigned: bool)
    requires i < |ops|
    ensures Demand(ops[..i]) <= Demand(ops[..i + 1]) <= Demand(ops)
    ensures ops[i].Free? ==> Demand(ops[..i + 1]) == Demand(ops[..i])
    ensures AllComparable(ops[..i + 1], charSigned) == (AllComparable(ops[..i], charSigned) && ops[i].Comparable(charSigned))
    ensures AllComparable(ops, charSigned) ==> AllComparable(ops[..i + 1], charSigned)
  {
    var n := |ops| - 1;
    assert ops[..i + 1][..i] == ops[..i];
    if i < n {
      OneMoreRequest(ops[..n], i, charSigned);
      assert ops[..n][..i] == ops[..i] && ops[..n][..i + 1] == ops[..i + 1];
    } else {
      assert ops[..n + 1] == ops;
    }
  }

  // The last request of a trace on an id, or the length of the trace.
  function LastOn(ops: seq<Op>, id: nat): (i: nat)
    ensures i <= |ops| && (i < |ops| ==> ops[i].index == id)
    ensures forall j :: 0 <= j < |ops| && (j > i || i == |ops|) ==> ops[j].index != id
  {
    if ops == [] then 0
    else
      var n := |ops| - 1;
      if ops[n].index == id then n
      else
        var i := LastOn(ops[..n], id);
        if i == n then |ops| else i
  }

  // An id has a block if and only if its last request was no free, and then one of the size asked for.
  lemma {:induction false} LastRequestDecides(ops: seq<Op>, id: nat)
    ensures id in After(ops).byId <==> LastOn(ops, id) < |ops| && !ops[LastOn(ops, id)].Free?
    ensures id in After(ops).byId ==> After(ops).byId[id].size == ops[LastOn(ops, id)].size
  {
    if ops != [] {
      var n := |ops| - 1;
      LastRequestDecides(ops[..n], id);
      if ops[n].index != id && LastOn(ops[..n], id) < n {
        assert ops[..n][LastOn(ops[..n], id)] == ops[LastOn(ops, id)];
      }
    }
  }

  // No id is allocated again while it has a block.
  predicate IdsReleased(ops: seq<Op>) {
    ops == [] || (
      var front, op := ops[..|ops| - 1], ops[|ops| - 1];
      IdsReleased(front) && (op.Alloc? ==> op.index !in After(front).byId))
  }

  // The blocks not yet freed are exactly those of the ids in use.
  ghost predicate AllNamed(l: Ledger) {
    forall b :: b in l.live <==> exists id :: id in l.byId && l.byId[id] == b
  }

  lemma NamedPush(l: Ledger, index: nat, b: Block)
    requires Sound(l) && AllNamed(l) && index !in l.byId
    ensures AllNamed(Push(l, index, b))
  {
    var next := Push(l, index, b);
    forall c | c in next.live ensures exists id :: id in next.byId && next.byId[id] == c {
      if c in l.live {
        var id :| id in l.byId && l.byId[id] == c;
        assert id in next.byId;
      } else {
        assert index in next.byId;
      }
    }
  }

  lemma NamedRelease(l: Ledger, index: nat)
    requires Sound(l) && AllNamed(l) && index in l.byId
    ensures AllNamed(Release(l, index))
  {
    var next := Release(l, index);
    WithoutDescends(l.live, l.byId[index], l.words);
    forall c | c in next.live ensures exists id :: id in next.byId && next.byId[id] == c {
      var id :| id in l.byId && l.byId[id] == c;
      assert id in next.byId;
    }
  }

  lemma NamedNext(l: Ledger, op: Op)
    requires Sound(l) && AllNamed(l) && (op.Alloc? <==> op.index !in l.byId)
    ensures AllNamed(Next(l, op))
  {
    if !op.Alloc? {
      SoundRelease(l, op.index);
      NamedRelease(l, op.index);
    }
    if !op.Free? {
      NamedPush(if op.Alloc? then l else Release(l, op.index), op.index, Block(l.words, op.size));
    }
  }

  lemma {:induction false} LiveBlocksHaveIds(ops: seq<Op>, numIds: nat)
    requires Acceptable(ops, numIds) && IdsReleased(ops)
    ensures AllNamed(After(ops))
  {
    if ops != [] {
      var front := ops[..|ops| - 1];
      LiveBlocksHaveIds(front, numIds);
      SoundAfter(front, numIds);
      NamedNext(After(front), ops[|ops| - 1]);
    }
  }

  // ---- the payload extents of blocks in a heap that begins at start ----

  function PayloadExtent(start: int, b: Block): R.Extent {
    R.Extent(start + b.Data(), start + b.Data() + b.size - 1)
  }

  function Extents(start: int, live: seq<Block>): (es: seq<R.Extent>)
    ensures |es| == |live|
  {
    if live == [] then [] else Extents(start, live[..|live| - 1]) + [PayloadExtent(start, live[|live| - 1])]
  }

  lemma {:induction false} ExtentsAt(start: int, live: seq<Block>)
    ensures forall i :: 0 <= i < |live| ==> Extents(start, live)[i] == PayloadExtent(start, live[i])
  {
    if live != [] {
      ExtentsAt(start, live[..|live| - 1]);
    }
  }

  lemma ExtentsCons(start: int, live: seq<Block>, b: Block)
    ensures Extents(start, [b] + live) == [PayloadExtent(start, b)] + Extents(start, live)
  {
    ExtentsAt(start, live);
    ExtentsAt(start, [b] + live);
  }

  // No two live payloads share a byte.
  lemma LiveExtentsAreDisjoint(start: int, l: Ledger, i: nat, j: nat)
    requires Sound(l) && i < j < |l.live|
    ensures !R.Overlap(Extents(start, l.live)[i].lo, Extents(start, l.live)[i].hi, Extents(start, l.live)[j])
  {
    ExtentsAt(start, l.live);
    DescendingAt(l.live, l.words, i, j);
  }

  // A block at the end of the heap is aligned, inside the heap, and clear of the live payloads.
  lemma NewBlockPasses(start: int, l: Ledger, b: Block)
    requires start % 8 == 0 && Sound(l) && b.first == l.words && b.size > 0
    ensures (start + b.Data()) % 8 == 0
    ensures start + b.Data() + b.size <= start + 8 * b.Next()
    ensures forall e :: e in Extents(start, l.live) ==> !R.Detected(start + b.Data(), start + b.Data() + b.size - 1, e)
  {
    assert start + b.Data() == 8 * (start / 8 + b.first + 1);
    ExtentsAt(start, l.live);
    forall e | e in Extents(start, l.live)
      ensures !R.Detected(start + b.Data(), start + b.Data() + b.size - 1, e)
    {
      var i :| 0 <= i < |l.live| && e == Extents(start, l.live)[i];
      DescendingAt(l.live, l.words, i, i);
    }
  }

  // Removing the extent that begins where a live payload does removes just that block's.
  lemma RemovalTracks(start: int, live: seq<Block>, b: Block, words: nat)
    requires Descending(live, words) && b in live
    ensures R.WithoutFirst(Extents(start, live), start + b.Data()) == Extents(start, Without(live, b))
  {
    var i :| 0 <= i < |live| && live[i] == b;
    OnlyAt(live, words, i);
    WithoutAt(live, b, i);
    FirstExtentIs(start, live, i, b, Without(live, b));
  }

  lemma IdRemovalTracks(start: int, l: Ledger, index: nat)
    requires Sound(l) && index in l.byId
    ensures R.WithoutFirst(Extents(start, l.live), start + l.byId[index].Data()) == Extents(start, Release(l, index).live)
  {
    RemovalTracks(start, l.live, l.byId[index], l.words);
  }

  lemma OnlyAt(live: seq<Block>, words: nat, i: nat)
    requires Descending(live, words) && i < |live|
    ensures forall j :: 0 <= j < |live| && j != i ==> live[j].first != live[i].first
  {
    forall j | 0 <= j < |live| && j != i ensures live[j].first != live[i].first {
      DescendingAt(live, words, if i < j then i else j, if i < j then j else i);
    }
  }

  lemma FirstExtentIs(start: int, live: seq<Block>, i: nat, b: Block, rest: seq<Block>)
    requires i < |live| && live[i] == b && forall j :: 0 <= j < i ==> live[j].first != b.first
    requires rest == live[..i] + live[i + 1..]
    ensures R.WithoutFirst(Extents(start, live), start + b.Data()) == Extents(start, rest)
  {
    var es := Extents(start, live);
    ExtentsAt(start, live);
    ExtentsAt(start, rest);
    assert R.FirstAt(es, start + b.Data()) == i;
    assert es[..i] + es[i + 1..] == Extents(start, rest);
  }

  lemma {:induction false} WithoutAt(live: seq<Block>, b: Block, i: nat)
    requires i < |live| && live[i] == b && forall j :: i < j < |live| ==> live[j] != b
    ensures Without(live, b) == live[..i] + live[i + 1..]
  {
    var n := |live| - 1;
    if i < n {
      WithoutAt(live[..n], b, i);
      assert live[i + 1..] == live[..n][i + 1..] + [live[n]];
    }
  }

  // ---- the bytes the driver writes ----

  ghost predicate Filled(m: seq<Byte>, b: Block, value: Byte) {
    forall k :: 0 <= k < b.size ==> ByteAt(m, b, k) == value
  }

  ghost predicate AllFilled(m: seq<Byte>, byId: map<nat, Block>) {
    forall id :: id in byId ==> Filled(m, byId[id], id % 256)
  }

  // A new block at the end of the heap leaves older payloads as they are.
  lemma FilledBefore(m: seq<Byte>, m': seq<Byte>, l: Ledger, c: Block)
    requires AllFilled(m, l.byId) && SameBefore(m', m, c) && c.first == l.words && Sound(l)
    ensures AllFilled(m', l.byId)
  {
    forall id, k | id in l.byId && 0 <= k < l.byId[id].size ensures ByteAt(m', l.byId[id], k) == id % 256 {
      var b := l.byId[id];
      DescendsBelow(l.live, l.words, b);
      assert ByteAt(m, b, k) == id % 256;
    }
  }

  // Filling the newest block with the low byte of its id.
  lemma FilledAfterFill(m: seq<Byte>, m': seq<Byte>, l: Ledger, index: nat, c: Block)
    requires Sound(l) && AllFilled(m, l.byId) && c.first == l.words && c.Data() + c.size <= |m|
    requires m' == Splice(m, c.Data(), seq(c.size, _ => index % 256))
    ensures AllFilled(m', l.byId[index := c])
  {
    var byId := l.byId[index := c];
    forall id, k | id in byId && 0 <= k < byId[id].size ensures ByteAt(m', byId[id], k) == id % 256 {
      if id != index {
        var b := l.byId[id];
        DescendsBelow(l.live, l.words, b);
        assert ByteAt(m, b, k) == id % 256;
      }
    }
  }
}
