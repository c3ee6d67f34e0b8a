// The bump allocator on the simulated memory system: mm.c over memlib.c.
module Heap {

  import opened Common

  const MAX_HEAP := 20 * 0x10_0000
  const HEADER := 8

  // Rounds up to a multiple of 8.
  function Align(n: nat): (r: nat)
    ensures n <= r < n + 8
  {
    8 * ((n + 7) / 8)
  }

  // ---- the size computation of mm_malloc in its machine types ----

  // int newsize = ALIGN(size + SIZE_T_SIZE), with size_t arithmetic modulo 2^64.
  function NewSize(size: nat): int {
    var m := (size + HEADER + 7) % 0x1_0000_0000_0000_0000;
    ToInt32(m - m % 8)
  }

  const INT_LIMIT := 0x8000_0000
  const SIZE_LIMIT := 0x1_0000_0000_0000_0000

  // For every size below 2^31 the computation is exact, or it is negative and mem_sbrk refuses.
  lemma NewSizeIsExact(size: nat)
    requires size < INT_LIMIT
    ensures NewSize(size) == Align(size + HEADER) || (NewSize(size) < 0 && Align(size + HEADER) >= INT_LIMIT)
  {
  }

  // mem_sbrk refuses the extension when so many bytes of heap are in use.
  predicate Refused(used: int, size: nat) { NewSize(size) < 0 || used + NewSize(size) > MAX_HEAP }

  // The extension is smaller than header and payload.
  predicate Undersized(size: nat) { NewSize(size) < size + HEADER }

  // The low 32 bits of the padded size, rounded down to a multiple of 8.
  function LowWord(size: nat): (r: nat)
    ensures r % 8 == 0 && r < 0x1_0000_0000
  {
    var low := (size + 15) % 0x1_0000_0000;
    low - low % 8
  }

  // The extension is that low word, read as an int.
  lemma NewSizeIsLowWord(size: nat)
    requires size < SIZE_LIMIT
    ensures NewSize(size) == if LowWord(size) < INT_LIMIT then LowWord(size) else LowWord(size) - 0x1_0000_0000
  {
    var m := (size + 15) % SIZE_LIMIT;
    SameLowWord(size + 15);
    AlignedLowWord(m);
    ToInt32IsLowWord(m - m % 8);
  }

  lemma LowWordIs(n: nat, high: nat, low: nat)
    requires n == 0x1_0000_0000 * high + low && low < 0x1_0000_0000
    ensures n % 0x1_0000_0000 == low
  {
  }

  lemma SameLowWord(n: nat)
    ensures n % SIZE_LIMIT % 0x1_0000_0000 == n % 0x1_0000_0000
  {
    var m, wraps := n % SIZE_LIMIT, n / SIZE_LIMIT;
    var high, low := m / 0x1_0000_0000, m % 0x1_0000_0000;
    LowWordIs(n, 0x1_0000_0000 * wraps + high, low);
  }

  lemma LowBitsAre(m: nat, high: nat, low: nat)
    requires m == 8 * high + low && low < 8
    ensures m % 8 == low
  {
  }

  lemma AlignedLowWord(m: nat)
    ensures m % 8 == m % 0x1_0000_0000 % 8
    ensures (m - m % 8) % 0x1_0000_0000 == m % 0x1_0000_0000 - m % 8
  {
    var high, low := m / 0x1_0000_0000, m % 0x1_0000_0000;
    LowBitsAre(m, 0x2000_0000 * high + low / 8, low % 8);
    LowWordIs(m - m % 8, high, low - low % 8);
  }

  lemma ToInt32IsLowWord(a: nat)
    ensures ToInt32(a) == a % 0x1_0000_0000 - (if a % 0x1_0000_0000 < INT_LIMIT then 0 else 0x1_0000_0000)
  {
  }

  // A block too small for its request is handed out exactly when the padded size does not fit an int
  // although its low word does, and the heap has room for that low word.
  lemma UndersizedIff(used: nat, size: nat)
    requires size < SIZE_LIMIT
    ensures !Refused(used, size) && Undersized(size) <==>
              size + 15 >= INT_LIMIT && LowWord(size) < INT_LIMIT && used + LowWord(size) <= MAX_HEAP
  {
    NewSizeIsLowWord(size);
  }

  // ---- a size_t in memory: eight bytes, least significant first ----

  function Encode(n: nat, k: nat): (bytes: seq<Byte>)
    ensures |bytes| == k
  {
    if k == 0 then [] else [n % 256] + Encode(n / 256, k - 1)
  }

  // The value of the n bytes of m from index k on.
  function Decode(m: seq<Byte>, k: nat, n: nat): nat
    decreases n
  {
    if n == 0 || k >= |m| then 0 else m[k] + 256 * Decode(m, k + 1, n - 1)
  }

  function PowerOf256(k: nat): nat { if k == 0 then 1 else 256 * PowerOf256(k - 1) }

  lemma {:induction false} DecodeEncode(m: seq<Byte>, k: nat, size: nat, n: nat)
    requires size < PowerOf256(n) && k + n <= |m| && m[k..k + n] == Encode(size, n)
    ensures Decode(m, k, n) == size
    decreases n
  {
    if n > 0 {
      assert m[k] == m[k..k + n][0] && m[k + 1..k + n] == m[k..k + n][1..];
      DecodeEncode(m, k + 1, size / 256, n - 1);
    }
  }

  lemma {:induction false} DecodeSame(m: seq<Byte>, m': seq<Byte>, k: nat, n: nat)
    requires k + n <= |m| == |m'| && forall i :: k <= i < k + n ==> m'[i] == m[i]
    ensures Decode(m', k, n) == Decode(m, k, n)
    decreases n
  {
    if n > 0 {
      DecodeSame(m, m', k + 1, n - 1);
    }
  }

  // The bytes of a size_t.
  function SizeBytes(size: nat): (bytes: seq<Byte>)
    requires size < SIZE_LIMIT
    ensures |bytes| == HEADER
  {
    Encode(size, HEADER)
  }

  lemma SizeIsStored(m: seq<Byte>, k: nat, size: nat)
    requires size < SIZE_LIMIT && k + HEADER <= |m| && m[k..k + HEADER] == SizeBytes(size)
    ensures Decode(m, k, HEADER) == size
  {
    DecodeEncode(m, k, size, HEADER);
  }

  // ---- blocks ----

  // Words of 8 bytes that a request takes: one for the header, and enough for the payload.
  function Words(size: nat): (w: nat)
    ensures size + HEADER <= 8 * w < size + HEADER + 8
  {
    if size == 0 then 1 else if size <= 8 then 2 else 1 + Words(size - 8)
  }

  lemma WordsAreAligned(size: nat)
    ensures 8 * Words(size) == Align(size + HEADER)
  {
  }

  // A block: the word of the heap where its header is, and its requested size.
  datatype Block = Block(first: nat, size: nat) {
    function Data(): nat { 8 * first + HEADER }       // offset of the payload
    function Next(): nat { first + Words(size) }      // word after the block
    predicate Covers(k: int) { Data() - HEADER <= k < Data() + size }
  }

  function Extent(blocks: seq<Block>): nat {
    if blocks == [] then 0 else Extent(blocks[..|blocks| - 1]) + Words(blocks[|blocks| - 1].size)
  }

  lemma ExtentSnoc(blocks: seq<Block>, b: Block)
    ensures Extent(blocks + [b]) == Extent(blocks) + Words(b.size)
  {
    assert (blocks + [b])[..|blocks|] == blocks;
  }

  // Blocks lie one after the other and fill the heap.
  ghost predicate Layout(blocks: seq<Block>) {
    blocks == [] || (
      var older := blocks[..|blocks| - 1];
      Layout(older) && blocks[|blocks| - 1].first == Extent(older))
  }

  // One more block of this size would pass the end of the simulated memory.
  predicate Full(blocks: seq<Block>, size: nat) {
    8 * (Extent(blocks) + Words(size)) > MAX_HEAP
  }

  // The header of b in memory m holds its requested size.
  ghost predicate Header(m: seq<Byte>, b: Block) {
    b.Data() <= |m| && Decode(m, 8 * b.first, HEADER) == b.size
  }

  ghost predicate Headers(m: seq<Byte>, blocks: seq<Block>) {
    blocks == [] || (Headers(m, blocks[..|blocks| - 1]) && Header(m, blocks[|blocks| - 1]))
  }

  lemma {:induction false} HeaderOf(m: seq<Byte>, blocks: seq<Block>, b: Block)
    requires Headers(m, blocks) && b in blocks
    ensures Header(m, b)
  {
    if b != blocks[|blocks| - 1] {
      HeaderOf(m, blocks[..|blocks| - 1], b);
    }
  }

  ghost predicate WellFormed(m: seq<Byte>, blocks: seq<Block>) {
    Layout(blocks) && 8 * Extent(blocks) <= |m| && Headers(m, blocks)
  }

  function Payload(m: seq<Byte>, b: Block): seq<Byte>
    requires b.Data() + b.size <= |m|
  {
    m[b.Data()..b.Data() + b.size]
  }

  // Memory m with some bytes written from index k on.
  function Splice(m: seq<Byte>, k: nat, bytes: seq<Byte>): (r: seq<Byte>)
    requires k + |bytes| <= |m|
    ensures |r| == |m|
    ensures forall j :: 0 <= j < |m| ==> r[j] == if k <= j < k + |bytes| then bytes[j - k] else m[j]
  {
    m[..k] + bytes + m[k + |bytes|..]
  }

  // Changing memory outside all headers keeps them.
  lemma {:induction false} HeadersKept(m: seq<Byte>, m': seq<Byte>, blocks: seq<Block>)
    requires Headers(m, blocks) && |m'| == |m|
    requires forall i, k :: 0 <= i < |blocks| && blocks[i].Data() - HEADER <= k < blocks[i].Data() && k < |m| ==> m'[k] == m[k]
    ensures Headers(m', blocks)
  {
    if blocks != [] {
      var last := blocks[|blocks| - 1];
      HeadersKept(m, m', blocks[..|blocks| - 1]);
      DecodeSame(m, m', 8 * last.first, HEADER);
    }
  }

  lemma LayoutPushed(blocks: seq<Block>, b: Block)
    requires Layout(blocks) && b.first == Extent(blocks)
    ensures Layout(blocks + [b]) && Extent(blocks + [b]) == b.Next()
  {
    assert (blocks + [b])[..|blocks|] == blocks;
  }

  // A new block at the end of the heap, with its header written.
  lemma Pushed(m: seq<Byte>, m': seq<Byte>, blocks: seq<Block>, b: Block)
    requires WellFormed(m, blocks) && b.first == Extent(blocks) && 8 * b.Next() <= |m| && b.size < SIZE_LIMIT
    requires m' == Splice(m, 8 * b.first, SizeBytes(b.size))
    ensures WellFormed(m', blocks + [b])
    ensures SameBefore(m', m, b)
  {
    forall i | 0 <= i < |blocks| ensures blocks[i].Data() <= 8 * b.first {
      Apart(blocks, i, i);
    }
    HeadersKept(m, m', blocks);
    LayoutPushed(blocks, b);
    assert m'[8 * b.first..8 * b.first + HEADER] == SizeBytes(b.size);
    SizeIsStored(m', 8 * b.first, b.size);
    assert (blocks + [b])[..|blocks|] == blocks;
  }

  // A write inside one payload touches no header and no other payload.
  lemma PayloadWrite(m: seq<Byte>, m': seq<Byte>, blocks: seq<Block>, b: Block)
    requires WellFormed(m, blocks) && b in blocks && |m'| == |m|
    requires forall k :: 0 <= k < |m| && !(b.Data() <= k < b.Data() + b.size) ==> m'[k] == m[k]
    ensures WellFormed(m', blocks)
  {
    var j :| 0 <= j < |blocks| && blocks[j] == b;
    forall i, k | 0 <= i < |blocks| && blocks[i].Data() - HEADER <= k < blocks[i].Data() && k < |m| ensures m'[k] == m[k] {
      Apart(blocks, i, j);
    }
    HeadersKept(m, m', blocks);
  }

  lemma OtherPayloadKept(m: seq<Byte>, m': seq<Byte>, blocks: seq<Block>, b: Block, c: Block)
    requires Layout(blocks) && b in blocks && c in blocks && c != b && 8 * Extent(blocks) <= |m| == |m'|
    requires forall k :: 0 <= k < |m| && !(b.Data() <= k < b.Data() + b.size) ==> m'[k] == m[k]
    ensures c.Data() + c.size <= |m| && Payload(m', c) == Payload(m, c)
  {
    var j :| 0 <= j < |blocks| && blocks[j] == b;
    var i :| 0 <= i < |blocks| && blocks[i] == c;
    Apart(blocks, i, j);
  }

  // What the layout means for addresses: in a heap that begins at an 8-aligned address every payload
  // is 8-aligned, and every block is inside the heap.
  lemma BlockIsSound(start: int, blocks: seq<Block>, i: nat)
    requires start % 8 == 0 && Layout(blocks) && i < |blocks|
    ensures (start + blocks[i].Data()) % 8 == 0
    ensures forall k :: blocks[i].Covers(k) ==> 0 <= k < 8 * Extent(blocks)
  {
    Apart(blocks, i, i);
    assert start + blocks[i].Data() == 8 * (start / 8 + blocks[i].first + 1);
  }

  // No two blocks share a byte.
  lemma BlocksAreDisjoint(blocks: seq<Block>, i: nat, j: nat)
    requires Layout(blocks) && i < |blocks| && j < |blocks| && i != j
    ensures forall k :: !(blocks[i].Covers(k) && blocks[j].Covers(k))
  {
    Apart(blocks, i, j);
  }

  function AlignedSizes(blocks: seq<Block>): nat {
    if blocks == [] then 0 else AlignedSizes(blocks[..|blocks| - 1]) + Align(blocks[|blocks| - 1].size + HEADER)
  }

  lemma {:induction false} ExtentIsSumOfAlignedSizes(blocks: seq<Block>)
    ensures 8 * Extent(blocks) == AlignedSizes(blocks)
  {
    if blocks != [] {
      ExtentIsSumOfAlignedSizes(blocks[..|blocks| - 1]);
      WordsAreAligned(blocks[|blocks| - 1].size);
    }
  }

  // Header and payload of one block lie wholly before those of any other, or wholly after.
  lemma {:induction false} Apart(blocks: seq<Block>, i: nat, j: nat)
    requires Layout(blocks) && i < |blocks| && j < |blocks|
    ensures blocks[i].Data() + blocks[i].size <= 8 * blocks[i].Next() <= 8 * Extent(blocks)
    ensures i < j ==> blocks[i].Data() + blocks[i].size <= blocks[j].Data() - HEADER
    ensures j < i ==> blocks[j].Data() + blocks[j].size <= blocks[i].Data() - HEADER
    decreases |blocks|
  {
    var n, older := |blocks| - 1, blocks[..|blocks| - 1];
    if i < n {
      Apart(older, i, if j < n then j else i);
    } else if j < n {
      Apart(older, j, j);
    }
  }

  class Allocator {
    const start: int            // mem_start_brk
    const mem: array<Byte>      // the bytes from mem_start_brk on
    var brk: int                // mem_brk
    ghost var blocks: seq<Block>
    ghost var image: seq<Byte>  // the contents of mem

    ghost predicate Mirrored()
      reads this, mem
    {
      mem.Length == MAX_HEAP && image == mem[..]
    }

    ghost predicate Valid()
      reads this, mem
    {
      && start > 0 && start % 8 == 0 && Mirrored()
      && brk == start + 8 * Extent(blocks)
      && WellFormed(image, blocks)
    }

    ghost function Address(b: Block): int { start + b.Data() }

    // mem_init: storage at an address that malloc aligned.
    constructor (start: int)
      requires start > 0 && start % 8 == 0
      ensures Valid() && blocks == [] && this.start == start && fresh(mem)
    {
      this.start := start;
      mem := new Byte[MAX_HEAP](_ => 0);
      brk := start;
      blocks := [];
      new;
      image := mem[..];
    }

    // mem_reset_brk, which forgets all blocks.
    method ResetBrk()
      requires Valid()
      modifies this`brk, this`blocks
      ensures Valid() && blocks == []
    {
      brk := start;
      blocks := [];
    }

    // mem_heap_lo and mem_heap_hi: the addresses between which all blocks lie.
    method HeapBounds() returns (lo: int, hi: int)
      ensures lo == start && hi == brk - 1
      ensures Valid() ==> hi - lo + 1 == 8 * Extent(blocks)
      ensures Valid() ==> forall b :: b in blocks ==> lo <= Address(b) - HEADER && Address(b) + b.size - 1 <= hi
    {
      lo, hi := start, brk - 1;
      if Valid() {
        forall b | b in blocks ensures b.Data() + b.size <= 8 * Extent(blocks) {
          var i :| 0 <= i < |blocks| && blocks[i] == b;
          Apart(blocks, i, i);
        }
      }
    }

    // mem_sbrk
    method Sbrk(incr: int) returns (p: int)
      modifies this`brk
      ensures if incr < 0 || old(brk) + incr > start + MAX_HEAP
        then p == -1 && brk == old(brk)
        else p == old(brk) && brk == old(brk) + incr
    {
      var oldBrk := brk;
      if incr < 0 || brk + incr > start + MAX_HEAP {
        return -1;
      }
      brk := brk + incr;
      return oldBrk;
    }

    // *(size_t *)(mem_start_brk + k) = size
    method StoreSize(k: nat, size: nat)
      requires Mirrored() && k + HEADER <= MAX_HEAP && size < SIZE_LIMIT
      modifies mem, this`image
      ensures Mirrored() && image == Splice(old(image), k, SizeBytes(size))
    {
      var code := SizeBytes(size);
      forall i | 0 <= i < HEADER {
        mem[k + i] := code[i];
      }
      image := Splice(image, k, code);
    }

    ghost function Used(): int
      reads this
    {
      brk - start
    }

    // Line 66 of mm_malloc writes the header at the old brk, whatever the size of the extension.
    ghost predicate CanStoreHeader(size: nat)
      reads this
    {
      size < INT_LIMIT || Refused(Used(), size) || Used() + HEADER <= MAX_HEAP
    }

    // The extension of the heap in mm_malloc.
    method Extend(size: nat) returns (p: int)
      requires Valid() && size < SIZE_LIMIT
      modifies this`brk
      ensures if Refused(old(Used()), size) then p == -1 && brk == old(brk) else p == old(brk) && brk == old(brk) + NewSize(size)
      ensures size < INT_LIMIT ==> (p == -1 <==> Full(blocks, size)) && (p != -1 ==> brk == old(brk) + 8 * Words(size))
    {
      if size < INT_LIMIT {
        NewSizeIsExact(size);
        WordsAreAligned(size);
      }
      p := Sbrk(NewSize(size));
    }

    // The header of a new block at the old end of the heap, which belongs to the heap if it was extended enough.
    method Place(ghost b: Block, k: nat, size: nat)
      requires Mirrored() && WellFormed(image, blocks) && b == Block(Extent(blocks), size) && k == 8 * b.first
      requires size < SIZE_LIMIT && k + HEADER <= MAX_HEAP && (size < INT_LIMIT ==> 8 * b.Next() <= MAX_HEAP)
      modifies mem, this`image, this`blocks
      ensures Mirrored() && SameBefore(image, old(image), b)
      ensures size < INT_LIMIT ==> WellFormed(image, blocks) && blocks == old(blocks) + [b] && Extent(blocks) == b.Next()
    {
      StoreSize(k, size);
      ghost var fits := size < INT_LIMIT;
      if fits {
        Pushed(old(image), image, blocks, b);
        LayoutPushed(blocks, b);
        blocks := blocks + [b];
      }
    }

    // mm_malloc: a new block at the end of the heap, or NULL when mem_sbrk refuses. From 2^31 on, a
    // block that is handed out sticks out of the heap.
    method Malloc(size: nat) returns (p: int, ghost b: Block)
      requires Valid() && size < SIZE_LIMIT && CanStoreHeader(size)
      modifies this, mem
      ensures Mirrored() && b == Block(Extent(old(blocks)), size) && (p == 0 || p == Address(b))
      ensures p == 0 <==> Refused(old(Used()), size)
      ensures size < INT_LIMIT ==> Valid() && (p == 0 <==> Full(old(blocks), size))
      ensures p == 0 ==> Valid() && blocks == old(blocks) && image == old(image)
      ensures p != 0 ==> SameBefore(image, old(image), b)
      ensures p != 0 && size < INT_LIMIT ==> blocks == old(blocks) + [b] && b in blocks && 8 * b.Next() <= MAX_HEAP
      ensures p != 0 && size >= INT_LIMIT ==> Undersized(size) && brk == p - HEADER + NewSize(size) < p + size
    {
      b := Block(Extent(blocks), size);
      p := Extend(size);
      if p == -1 {
        p := 0;
      } else {
        Place(b, p - start, size);
        p := p + HEADER;
      }
    }

    // mm_malloc called with an int, as the driver does.
    method MallocInt(size: nat) returns (p: int, ghost b: Block)
      requires Valid() && size < INT_LIMIT
      modifies this, mem
      ensures Valid() && b == Block(Extent(old(blocks)), size)
      ensures p == 0 <==> Full(old(blocks), size)
      ensures p != 0 ==> p == Address(b) && blocks == old(blocks) + [b] && SameBefore(image, old(image), b)
    {
      p, b := Malloc(size);
    }

    // mm_free does nothing.
    method Free(p: int) {
    }

    // The size a block was requested with, read from its header.
    method LoadSize(ghost b: Block, ptr: int) returns (size: nat)
      requires Mirrored() && Header(image, b) && ptr == Address(b)
      ensures size == b.size
    {
      assert image == mem[..];
      size := Decode(mem[..], ptr - HEADER - start, HEADER);
    }

    // memcpy to a range from one before it.
    method CopyBytes(dst: nat, src: nat, n: nat)
      requires Mirrored() && src + n <= dst && dst + n <= MAX_HEAP
      modifies mem, this`image
      ensures Mirrored() && image == Splice(old(image), dst, old(image)[src..src + n])
    {
      forall i | 0 <= i < n {
        mem[dst + i] := mem[src + i];
      }
      ghost var bytes := image[src..src + n];
      image := Splice(image, dst, bytes);
      forall k | 0 <= k < MAX_HEAP ensures image[k] == mem[k] {
        if dst <= k < dst + n {
          assert mem[dst + (k - dst)] == bytes[k - dst];
        }
      }
    }

    // mm_realloc of the block b: a new block that begins with the old contents, or NULL. From 2^31 on
    // it sticks out of the heap, and so may the copy, which must stay inside the storage.
    method Realloc(ghost b: Block, ptr: int, size: nat) returns (p: int, ghost c: Block)
      requires Valid() && b in blocks && ptr == Address(b) && size < SIZE_LIMIT
      requires size < INT_LIMIT || Refused(Used(), size) || Used() + HEADER + b.size <= MAX_HEAP
      modifies this, mem
      ensures Mirrored() && c == Block(Extent(old(blocks)), size) && (p == 0 || p == Address(c))
      ensures p == 0 <==> Refused(old(Used()), size)
      ensures size < INT_LIMIT ==> Valid() && (p == 0 <==> Full(old(blocks), size))
      ensures p == 0 ==> Valid() && blocks == old(blocks) && image == old(image)
      ensures p != 0 ==> SameBefore(image, old(image), c) && SamePrefix(image, c, old(image), b)
      ensures p != 0 && size < INT_LIMIT ==> blocks == old(blocks) + [c] && 8 * c.Next() <= MAX_HEAP
      ensures p != 0 && size >= INT_LIMIT ==> Undersized(size) && brk == p - HEADER + NewSize(size) < p + size
    {
      ghost var older, before := blocks, image;
      OldBlock(before, older, b);
      p, c := Malloc(size);
      if p != 0 {
        DecodeSame(before, image, 8 * b.first, HEADER);
        MovePayload(b, c, ptr, p, size, before);
      }
    }

    // mm_realloc called with an int, as the driver does.
    method ReallocInt(ghost b: Block, ptr: int, size: nat) returns (p: int, ghost c: Block)
      requires Valid() && b in blocks && ptr == Address(b) && size < INT_LIMIT
      modifies this, mem
      ensures Valid() && c == Block(Extent(old(blocks)), size)
      ensures p == 0 <==> Full(old(blocks), size)
      ensures p != 0 ==> p == Address(c) && blocks == old(blocks) + [c]
      ensures p != 0 ==> SameBefore(image, old(image), c) && SamePrefix(image, c, old(image), b)
    {
      p, c := Realloc(b, ptr, size);
    }

    // The rest of mm_realloc: copy the payload of b to where the block c begins, behind it.
    method MovePayload(ghost b: Block, ghost c: Block, oldptr: int, newptr: int, size: nat, ghost before: seq<Byte>)
      requires Mirrored() && Header(image, b) && SameBefore(image, before, c)
      requires b.Data() + b.size <= 8 * c.first && c.Data() + Min(b.size, c.size) <= MAX_HEAP
      requires oldptr == Address(b) && newptr == Address(c) && size == c.size
      requires size < INT_LIMIT ==> WellFormed(image, blocks) && c in blocks
      modifies mem, this`image
      ensures Mirrored() && SameBefore(image, before, c) && SamePrefix(image, c, before, b)
      ensures size < INT_LIMIT ==> WellFormed(image, blocks)
    {
      var copySize := LoadSize(b, oldptr);
      if size < copySize {
        copySize := size;
      }
      var dst, src := newptr - start, oldptr - start;
      assert dst == c.Data() && src == b.Data();
      CopyBytes(dst, src, copySize);
      PayloadMoved(before, old(image), image, b, c, dst, src, copySize);
      if size < INT_LIMIT {
        PayloadWrite(old(image), image, blocks, c);
      }
      Free(oldptr);
    }

    // A client's write of one byte of a payload.
    method Poke(ghost b: Block, p: int, k: nat, value: Byte)
      requires Valid() && b in blocks && p == Address(b) && k < b.size
      modifies mem, this`image
      ensures Valid() && b.Data() + k < MAX_HEAP && image == old(image)[b.Data() + k := value]
    {
      ghost var j :| 0 <= j < |blocks| && blocks[j] == b;
      Apart(blocks, j, j);
      mem[p - start + k] := value;
      image := image[b.Data() + k := value];
      PayloadWrite(old(image), image, blocks, b);
    }

    // memset of n bytes at the beginning of the payload of block b.
    method Fill(ghost b: Block, p: int, value: Byte, n: nat)
      requires Valid() && b in blocks && p == Address(b) && n <= b.size
      modifies mem, this`image
      ensures Valid() && b.Data() + n <= MAX_HEAP
      ensures image == Splice(old(image), b.Data(), seq(n, _ => value))
    {
      ghost var j :| 0 <= j < |blocks| && blocks[j] == b;
      Apart(blocks, j, j);
      FillBytes(p - start, value, n);
      PayloadWrite(old(image), image, blocks, b);
    }

    method FillBytes(k: nat, value: Byte, n: nat)
      requires Mirrored() && k + n <= MAX_HEAP
      modifies mem, this`image
      ensures Mirrored() && image == Splice(old(image), k, seq(n, _ => value))
    {
      forall i | 0 <= i < n {
        mem[k + i] := value;
      }
      image := Splice(image, k, seq(n, _ => value));
    }
  }

  // A request of 2^32 bytes on an empty heap gets a block that ends where its payload should begin.
  method OversizedRequest(start: int) returns (heap: Allocator, p: int)
    requires start > 0 && start % 8 == 0
    ensures p == heap.start + HEADER == heap.brk
  {
    heap := new Allocator(start);
    ghost var b;
    p, b := heap.Malloc(0x1_0000_0000);
  }

  lemma OldBlock(m: seq<Byte>, blocks: seq<Block>, b: Block)
    requires WellFormed(m, blocks) && b in blocks
    ensures Header(m, b) && b.Data() + b.size <= 8 * Extent(blocks)
  {
    HeaderOf(m, blocks, b);
    var i :| 0 <= i < |blocks| && blocks[i] == b;
    Apart(blocks, i, i);
  }

  // Nothing before b differs.
  ghost predicate SameBefore(m': seq<Byte>, m: seq<Byte>, b: Block) {
    && 8 * b.first <= |m'| == |m|
    && forall k :: 0 <= k < 8 * b.first ==> m'[k] == m[k]
  }

  // The payload of c in memory m' begins with that of b in memory m, as far as both go.
  ghost predicate SamePrefix(m': seq<Byte>, c: Block, m: seq<Byte>, b: Block) {
    forall k :: 0 <= k < b.size && k < c.size ==> ByteAt(m', c, k) == ByteAt(m, b, k)
  }

  // Byte k of the payload of b.
  function ByteAt(m: seq<Byte>, b: Block, k: nat): Byte { if b.Data() + k < |m| then m[b.Data() + k] else 0 }

  lemma PayloadMoved(before: seq<Byte>, m: seq<Byte>, m': seq<Byte>, b: Block, c: Block, dst: nat, src: nat, n: nat)
    requires SameBefore(m, before, c) && b.Data() + b.size <= 8 * c.first && n == Min(b.size, c.size)
    requires dst == c.Data() && src == b.Data() && dst + n <= |m| && m' == Splice(m, dst, m[src..src + n])
    ensures SameBefore(m', before, c) && SamePrefix(m', c, before, b)
  {
    forall k | 0 <= k < b.size && k < c.size ensures ByteAt(m', c, k) == ByteAt(before, b, k) {
      assert m'[dst + k] == m[src..src + n][k];
    }
  }
}
