// The driver's validity check of the allocator on a trace of requests.
module Driver {
  import opened Common
  import opened Heap
  import opened Ledger
  import R = RangeList

  // The tables hold the address and size of each id's block, in a heap that begins at start.
  ghost predicate Recorded(ptrs: seq<int>, sizes: seq<int>, start: int, byId: map<nat, Block>) {
    && |ptrs| == |sizes|
    && forall id :: id in byId ==> id < |ptrs| && 0 < byId[id].size == sizes[id] && ptrs[id] == start + byId[id].Data()
  }

  // The driver's records agree with a ledger: the heap has its blocks, each filled with the low byte
  // of its id, the range list has exactly their payload extents, and the tables have their addresses.
  ghost predicate Agrees(l: Ledger, blocks: seq<Block>, image: seq<Byte>, es: seq<R.Extent>, start: int,
                         ptrs: seq<int>, sizes: seq<int>)
  {
    && Sound(l) && Extent(blocks) == l.words && (forall b :: b in l.live ==> b in blocks)
    && es == Extents(start, l.live)
    && AllFilled(image, l.byId)
    && Recorded(ptrs, sizes, start, l.byId)
  }

  lemma AgreesAfterRelease(l: Ledger, index: nat, blocks: seq<Block>, image: seq<Byte>, es: seq<R.Extent>, start: int,
                           ptrs: seq<int>, sizes: seq<int>)
    requires Agrees(l, blocks, image, es, start, ptrs, sizes) && index in l.byId
    ensures Agrees(Release(l, index), blocks, image, Extents(start, Release(l, index).live), start, ptrs, sizes)
  {
    SoundRelease(l, index);
    var byId := Release(l, index).byId;
    forall id | id in byId ensures Filled(image, byId[id], id % 256) {
      assert Filled(image, l.byId[id], id % 256);
    }
  }

  lemma AgreesAfterPush(l: Ledger, index: nat, b: Block, older: seq<Block>, before: seq<Byte>, image: seq<Byte>,
                        es: seq<R.Extent>, start: int,
                        ptrs: seq<int>, sizes: seq<int>, ptrs': seq<int>, sizes': seq<int>)
    requires Agrees(l, older, before, es, start, ptrs, sizes) && b.first == l.words
    requires AllFilled(image, Push(l, index, b).byId) && Recorded(ptrs', sizes', start, Push(l, index, b).byId)
    ensures Agrees(Push(l, index, b), older + [b], image, Extents(start, [b] + l.live), start, ptrs', sizes')
  {
    SoundPush(l, index, b);
    ExtentSnoc(older, b);
  }

  // A byte read through char *.
  function CharValue(b: Byte, charSigned: bool): int { if charSigned && b >= 128 then b - 256 else b }

  // After a copy from a block filled with value, the bytes both blocks have compare equal to value
  // exactly when the value is its own reading as a char.
  lemma CopiedBytes(before: seq<Byte>, image: seq<Byte>, b: Block, c: Block, value: Byte, charSigned: bool)
    requires SamePrefix(image, c, before, b) && Filled(before, b, value) && b.size > 0 && c.size > 0
    ensures (forall k :: 0 <= k < Min(b.size, c.size) ==> CharValue(ByteAt(image, c, k), charSigned) == value)
      <==> (charSigned ==> value < 128)
  {
    assert ByteAt(before, b, 0) == value && ByteAt(image, c, 0) == value;
  }

  class Driver {
    const heap: Allocator
    const ranges: R.Ranges
    const ptrs: array<int>      // trace->blocks
    const sizes: array<int>     // trace->block_sizes
    const charSigned: bool      // whether plain char is signed

    constructor (heap: Allocator, ranges: R.Ranges, numIds: nat, charSigned: bool)
      requires heap.Valid() && ranges.Valid()
      ensures this.heap == heap && this.ranges == ranges && this.charSigned == charSigned
      ensures Apart() && ptrs.Length == numIds && fresh(ptrs) && fresh(sizes)
    {
      this.heap := heap;
      this.ranges := ranges;
      this.charSigned := charSigned;
      ptrs := new int[numIds];
      sizes := new int[numIds];
    }

    ghost predicate Apart() {
      && ptrs != sizes && (ptrs as object) != heap.mem && (sizes as object) != heap.mem && ptrs.Length == sizes.Length
    }

    ghost predicate Tracks(l: Ledger)
      reads heap, heap.mem, ranges, ranges.nodes, ptrs, sizes
    {
      && Apart() && heap.Valid() && ranges.Valid()
      && Agrees(l, heap.blocks, heap.image, ranges.extents, heap.start, ptrs[..], sizes[..])
    }

    // add_range on a block just made at the end of the heap: it passes every test.
    method AddRange(ghost l: Ledger, ghost b: Block, p: int, size: nat) returns (ok: bool)
      requires ranges.Valid() && Sound(l) && ranges.extents == Extents(heap.start, l.live)
      requires heap.start % 8 == 0 && heap.brk == heap.start + 8 * b.Next()
      requires b.first == l.words && p == heap.Address(b) && 0 < size == b.size
      modifies ranges
      ensures ok && ranges.Valid() && ranges.extents == Extents(heap.start, [b] + l.live)
      ensures forall k :: 0 <= k < |ranges.nodes| ==> ranges.nodes[k] in old(ranges.nodes) || fresh(ranges.nodes[k])
    {
      NewBlockPasses(heap.start, l, b);
      ExtentsCons(heap.start, l.live, b);
      var lo, hi := heap.HeapBounds();
      ok := ranges.Add(p, size, lo, hi);
    }

    // remove_range on the block of an id.
    method RemoveRange(ghost l: Ledger, ghost index: nat, p: int)
      requires ranges.Valid() && Sound(l) && ranges.extents == Extents(heap.start, l.live)
      requires index in l.byId && p == heap.Address(l.byId[index])
      modifies ranges, ranges.nodes
      ensures ranges.Valid() && ranges.extents == Extents(heap.start, Release(l, index).live)
      ensures forall k :: 0 <= k < |ranges.nodes| ==> ranges.nodes[k] in old(ranges.nodes)
    {
      IdRemovalTracks(heap.start, l, index);
      ranges.Remove(p);
    }

    // remove_range of the old block and add_range of the new one.
    method ReplaceRange(ghost l: Ledger, index: nat, ghost c: Block, oldp: int, newp: int, size: nat) returns (ok: bool)
      requires ranges.Valid() && Sound(l) && ranges.extents == Extents(heap.start, l.live)
      requires index in l.byId && oldp == heap.Address(l.byId[index])
      requires heap.start % 8 == 0 && heap.brk == heap.start + 8 * c.Next()
      requires c.first == l.words && newp == heap.Address(c) && 0 < size == c.size
      modifies ranges, ranges.nodes
      ensures ok && ranges.Valid() && ranges.extents == Extents(heap.start, [c] + Release(l, index).live)
      ensures forall k :: 0 <= k < |ranges.nodes| ==> ranges.nodes[k] in old(ranges.nodes) || fresh(ranges.nodes[k])
    {
      RemoveRange(l, index, oldp);
      SoundRelease(l, index);
      ok := AddRange(Release(l, index), c, newp, size);
    }

    // Whether the first n bytes at p all compare equal to value.
    method CheckCopied(ghost c: Block, p: int, n: int, value: Byte) returns (ok: bool)
      requires heap.Valid() && p == heap.Address(c) && 0 <= n <= c.size && c.Data() + c.size <= MAX_HEAP
      ensures ok <==> forall k :: 0 <= k < n ==> CharValue(ByteAt(heap.image, c, k), charSigned) == value
    {
      var j := 0;
      while j < n
        invariant 0 <= j <= n
        invariant forall k :: 0 <= k < j ==> CharValue(ByteAt(heap.image, c, k), charSigned) == value
      {
        var byte := heap.mem[p - heap.start + j];
        assert byte == ByteAt(heap.image, c, j);
        if CharValue(byte, charSigned) != value {
          return false;
        }
        j := j + 1;
      }
      return true;
    }

    // The check of a reallocation from b, which was filled with the low byte of its id.
    method CheckRealloc(index: nat, ghost b: Block, ghost c: Block, newp: int, oldsize: nat, size: nat,
                        ghost before: seq<Byte>) returns (ok: bool)
      requires heap.Valid() && newp == heap.Address(c) && c.Data() + c.size <= MAX_HEAP
      requires 0 < oldsize == b.size && 0 < size == c.size
      requires SamePrefix(heap.image, c, before, b) && Filled(before, b, index % 256)
      ensures ok <==> Realloc(index, size).Comparable(charSigned)
    {
      CopiedBytes(before, heap.image, b, c, index % 256, charSigned);
      ok := CheckCopied(c, newp, if size < oldsize then size else oldsize, index % 256);
    }

    // memset of a block just made, with the low byte of its id.
    method FillNew(ghost l: Ledger, index: nat, ghost b: Block, p: int, size: nat)
      requires heap.Valid() && Sound(l) && AllFilled(heap.image, l.byId)
      requires b in heap.blocks && b.first == l.words && p == heap.Address(b) && size == b.size
      modifies heap`image, heap.mem
      ensures heap.Valid() && AllFilled(heap.image, l.byId[index := b])
    {
      ghost var before := heap.image;
      heap.Fill(b, p, index % 256, size);
      FilledAfterFill(before, heap.image, l, index, b);
    }

    // Enter a block in the tables.
    method Remember(ghost byId: map<nat, Block>, index: nat, ghost b: Block, p: int, size: nat)
      requires Apart() && Recorded(ptrs[..], sizes[..], heap.start, byId) && index < ptrs.Length
      requires p == heap.Address(b) && 0 < size == b.size
      modifies ptrs, sizes
      ensures Recorded(ptrs[..], sizes[..], heap.start, byId[index := b])
    {
      ptrs[index] := p;
      sizes[index] := size;
    }

    // The end of an allocation: fill the block, enter it in the tables.
    method Settle(ghost l: Ledger, index: nat, ghost b: Block, p: int, size: nat,
                  ghost older: seq<Block>, ghost before: seq<Byte>, ghost es: seq<R.Extent>)
      requires Apart() && index < ptrs.Length && Agrees(l, older, before, es, heap.start, ptrs[..], sizes[..])
      requires heap.Valid() && heap.blocks == older + [b] && SameBefore(heap.image, before, b)
      requires b.first == l.words && p == heap.Address(b) && 0 < size == b.size
      requires ranges.Valid() && ranges.extents == Extents(heap.start, [b] + l.live)
      modifies heap`image, heap.mem, ptrs, sizes
      ensures Tracks(Push(l, index, b))
    {
      ghost var was, had := ptrs[..], sizes[..];
      FilledBefore(before, heap.image, l, b);
      FillNew(l, index, b, p, size);
      Remember(l.byId, index, b, p, size);
      AgreesAfterPush(l, index, b, older, before, heap.image, es, heap.start, was, had, ptrs[..], sizes[..]);
    }

    // The end of a reallocation: check the copied bytes, and settle the block if they are right.
    method CheckThenSettle(ghost l: Ledger, index: nat, ghost b: Block, ghost c: Block, p: int, size: nat,
                           ghost older: seq<Block>, ghost before: seq<Byte>, ghost es: seq<R.Extent>) returns (ok: bool)
      requires Apart() && index < ptrs.Length && Agrees(l, older, before, es, heap.start, ptrs[..], sizes[..])
      requires heap.Valid() && heap.blocks == older + [c] && SameBefore(heap.image, before, c)
      requires c.first == l.words && p == heap.Address(c) && 0 < size == c.size
      requires ranges.Valid() && ranges.extents == Extents(heap.start, [c] + l.live)
      requires 0 < b.size == sizes[index] && SamePrefix(heap.image, c, before, b) && Filled(before, b, index % 256)
      modifies heap`image, heap.mem, ptrs, sizes
      ensures ok <==> Realloc(index, size).Comparable(charSigned)
      ensures ok ==> Tracks(Push(l, index, c))
    {
      ExtentSnoc(older, c);
      ok := CheckRealloc(index, b, c, p, sizes[index], size, before);
      if ok {
        Settle(l, index, c, p, size, older, before, es);
      }
    }

    method DoAlloc(ghost l: Ledger, index: nat, size: nat) returns (ok: bool)
      requires Tracks(l) && Permitted(l, Alloc(index, size), ptrs.Length)
      modifies heap, heap.mem, ranges, ptrs, sizes
      ensures ok <==> !Full(old(heap.blocks), size)
      ensures ok ==> Tracks(Push(l, index, Block(l.words, size)))
      ensures forall k :: 0 <= k < |ranges.nodes| ==> ranges.nodes[k] in old(ranges.nodes) || fresh(ranges.nodes[k])
    {
      ghost var before, older, es := heap.image, heap.blocks, ranges.extents;
      var p, b := heap.MallocInt(size);
      if p == 0 {
        ok := false;
      } else {
        ok := AddRange(l, b, p, size);
        if ok {
          Settle(l, index, b, p, size, older, before, es);
        }
      }
    }

    // The driver's part of a reallocation of b that gave the block c.
    method CheckAndSettle(ghost l: Ledger, index: nat, ghost c: Block, oldp: int, newp: int, size: nat,
                          ghost older: seq<Block>, ghost before: seq<Byte>) returns (ok: bool)
      requires Apart() && index in l.byId && index < ptrs.Length && oldp == heap.Address(l.byId[index])
      requires Agrees(l, older, before, ranges.extents, heap.start, ptrs[..], sizes[..])
      requires heap.Valid() && heap.blocks == older + [c] && SameBefore(heap.image, before, c) && ranges.Valid()
      requires SamePrefix(heap.image, c, before, l.byId[index])
      requires c.first == l.words && newp == heap.Address(c) && 0 < size == c.size
      modifies heap`image, heap.mem, ranges, ranges.nodes, ptrs, sizes
      ensures ok <==> Realloc(index, size).Comparable(charSigned)
      ensures ok ==> Tracks(Push(Release(l, index), index, c))
      ensures forall k :: 0 <= k < |ranges.nodes| ==> ranges.nodes[k] in old(ranges.nodes) || fresh(ranges.nodes[k])
    {
      ghost var rest := Release(l, index);
      ghost var es := Extents(heap.start, rest.live);
      AgreesAfterRelease(l, index, older, before, ranges.extents, heap.start, ptrs[..], sizes[..]);
      ExtentSnoc(older, c);
      ok := ReplaceRange(l, index, c, oldp, newp, size);
      if ok {
        ok := CheckThenSettle(rest, index, l.byId[index], c, newp, size, older, before, es);
      }
    }

    method DoRealloc(ghost l: Ledger, index: nat, size: nat) returns (ok: bool)
      requires Tracks(l) && Permitted(l, Realloc(index, size), ptrs.Length)
      modifies heap, heap.mem, ranges, ranges.nodes, ptrs, sizes
      ensures ok <==> !Full(old(heap.blocks), size) && Realloc(index, size).Comparable(charSigned)
      ensures ok ==> Tracks(Push(Release(l, index), index, Block(l.words, size)))
      ensures forall k :: 0 <= k < |ranges.nodes| ==> ranges.nodes[k] in old(ranges.nodes) || fresh(ranges.nodes[k])
    {
      ghost var before, older := heap.image, heap.blocks;
      var oldp := ptrs[index];
      var newp, c := heap.ReallocInt(l.byId[index], oldp, size);
      if newp == 0 {
        ok := false;
      } else {
        ok := CheckAndSettle(l, index, c, oldp, newp, size, older, before);
      }
    }

    method DoFree(ghost l: Ledger, index: nat)
      requires Tracks(l) && Permitted(l, Free(index), ptrs.Length)
      modifies ranges, ranges.nodes
      ensures Tracks(Release(l, index))
      ensures forall k :: 0 <= k < |ranges.nodes| ==> ranges.nodes[k] in old(ranges.nodes)
    {
      ghost var blocks, image, was, had := heap.blocks, heap.image, ptrs[..], sizes[..];
      AgreesAfterRelease(l, index, blocks, image, ranges.extents, heap.start, was, had);
      var p := ptrs[index];
      RemoveRange(l, index, p);
      heap.Free(p);
    }

    method Step(ghost l: Ledger, op: Op) returns (ok: bool)
      requires Tracks(l) && Permitted(l, op, ptrs.Length)
      modifies heap, heap.mem, ranges, ranges.nodes, ptrs, sizes
      ensures ok <==> (op.Free? || 8 * Next(l, op).words <= MAX_HEAP) && op.Comparable(charSigned)
      ensures ok ==> Tracks(Next(l, op))
      ensures forall k :: 0 <= k < |ranges.nodes| ==> ranges.nodes[k] in old(ranges.nodes) || fresh(ranges.nodes[k])
    {
      match op
      case Alloc(index, size) =>
        ok := DoAlloc(l, index, size);
      case Realloc(index, size) =>
        ok := DoRealloc(l, index, size);
      case Free(index) =>
        DoFree(l, index);
        ok := true;
    }

    method Reset()
      requires Apart() && heap.Valid() && ranges.Valid()
      modifies heap, ranges
      ensures Tracks(EMPTY) && ranges.nodes == []
    {
      heap.ResetBrk();
      ranges.Clear();
    }

    // Request number i of a trace.
    method Interpret(ops: seq<Op>, i: nat, ghost l: Ledger) returns (ok: bool, ghost after: Ledger)
      requires i < |ops| && Acceptable(ops, ptrs.Length) && l == After(ops[..i]) && Tracks(l) && Passes(ops, i, charSigned)
      modifies heap, heap.mem, ranges, ranges.nodes, ptrs, sizes
      ensures ok ==> after == After(ops[..i + 1]) && Tracks(after) && Passes(ops, i + 1, charSigned)
      ensures !ok ==> Demand(ops) > MAX_HEAP || !AllComparable(ops, charSigned)
      ensures forall k :: 0 <= k < |ranges.nodes| ==> ranges.nodes[k] in old(ranges.nodes) || fresh(ranges.nodes[k])
    {
      AtRequest(ops, ptrs.Length, i);
      OneMoreRequest(ops, i, charSigned);
      after := Next(l, ops[i]);
      ok := Step(l, ops[i]);
    }

    // eval_mm_valid: it accepts a well-formed trace exactly when the aligned sizes fit in the heap
    // and, where char is signed, every reallocated id has a low byte below 128.
    method Evaluate(ops: seq<Op>) returns (ok: bool)
      requires Apart() && heap.Valid() && ranges.Valid() && Acceptable(ops, ptrs.Length)
      modifies heap, heap.mem, ranges, ptrs, sizes
      ensures ok <==> Demand(ops) <= MAX_HEAP && AllComparable(ops, charSigned)
      ensures ok ==> Tracks(After(ops))
    {
      Reset();
      var i := 0;
      ghost var l := EMPTY;
      while i < |ops|
        invariant 0 <= i <= |ops| && l == After(ops[..i]) && Tracks(l) && Passes(ops, i, charSigned)
        invariant forall k :: 0 <= k < |ranges.nodes| ==> fresh(ranges.nodes[k])
      {
        ok, l := Interpret(ops, i, l);
        if !ok {
          return;
        }
        i := i + 1;
      }
      assert ops[..i] == ops;
      ok := true;
    }
  }

  // A trace on which the driver's verdict depends on the signedness of char: a block is reallocated
  // under an id with a high low byte.
  method SignedCharTrace(start: int, index: nat, size: nat, charSigned: bool) returns (ok: bool)
    requires start > 0 && start % 8 == 0 && index % 256 >= 128 && 0 < size && 2 * Align(size + HEADER) <= MAX_HEAP
    ensures ok <==> !charSigned
  {
    var heap := new Allocator(start);
    var ranges := new R.Ranges();
    var driver := new Driver(heap, ranges, index + 1, charSigned);
    var ops := [Alloc(index, size), Realloc(index, size)];
    ShortTrace(ops, index, size, charSigned);
    ok := driver.Evaluate(ops);
  }

  lemma ShortTrace(ops: seq<Op>, index: nat, size: nat, charSigned: bool)
    requires ops == [Alloc(index, size), Realloc(index, size)] && index % 256 >= 128 && 0 < size < INT_LIMIT
    ensures Acceptable(ops, index + 1) && Demand(ops) == 2 * Align(size + HEADER)
    ensures AllComparable(ops, charSigned) <==> !charSigned
  {
    var first, second := Alloc(index, size), Realloc(index, size);
    OpsSnoc([], first, index + 1);
    OpsSnoc([] + [first], second, index + 1);
    assert ops == [] + [first] + [second] && ops[1] == second;
    AllComparableIff(ops, charSigned);
  }

  // For instance one byte under id 128.
  method RejectedTrace() returns (ok: bool)
    ensures !ok
  {
    ok := SignedCharTrace(8, 128, 1, true);
  }
}
