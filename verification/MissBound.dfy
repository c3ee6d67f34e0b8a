// The 32 by 32 transpose on the simulated 1 KB direct-mapped cache with 32-byte blocks.
module MissBound {
  import opened CacheSim
  import opened Common
  import opened Transpose
  import DM = DirectMapped

  const Small := Geometry(5, 1, 5)

  // Memory address of a reference, for 32 by 32 matrices of 4-byte ints at a and b.
  function AddressOf(a: int, b: int, x: Reference): int {
    match x
    case Load(r, c) => a + 4 * (32 * r + c)
    case Store(r, c) => b + 4 * (32 * r + c)
  }

  // What the simulator's process is called with.
  function Addresses(a: int, b: int, trace: seq<Reference>): seq<int> {
    seq(|trace|, p requires 0 <= p < |trace| => ToInt32(AddressOf(a, b, trace[p])))
  }

  // The memory blocks that are referenced.
  function Blocks(a: int, b: int, trace: seq<Reference>): seq<int> {
    seq(|trace|, p requires 0 <= p < |trace| => AddressOf(a, b, trace[p]) / 32)
  }

  // The block number that is left of a block after the addresses are truncated to 32 bits.
  function Truncated(block: int): int { ToInt32(32 * block) / 32 }

  lemma TruncateOffset(block: int, offset: int) returns (t: int)
    requires 0 <= offset < 32
    ensures ToInt32(32 * block) == 32 * (block + 32 * t)
    ensures ToInt32(32 * block + offset) == 32 * (block + 32 * t) + offset
  {
    var w := 32 * block + 0x8000_0000;
    var u := w / 0x1_0000_0000;
    var h := block + 0x400_0000 - 0x800_0000 * u;
    assert w == 0x1_0000_0000 * u + 32 * h;
    assert 0 <= h < 0x800_0000;
    assert (w + offset) / 0x1_0000_0000 == u;
    t := -0x40_0000 * u;
  }

  lemma ShiftMod32(n: int, k: int)
    ensures (n + 32 * k) % 32 == n % 32
  {
  }

  lemma DivideBy32(n: int, offset: int)
    requires 0 <= offset < 32
    ensures (32 * n + offset) / 32 == n
  {
  }

  lemma TruncationKeepsSets(x: int)
    ensures ToInt32(x) / 32 == Truncated(x / 32)
    ensures Truncated(x / 32) % 32 == (x / 32) % 32
  {
    var block, offset := x / 32, x % 32;
    assert x == 32 * block + offset;
    var t := TruncateOffset(block, offset);
    DivideBy32(block + 32 * t, offset);
    DivideBy32(block + 32 * t, 0);
    ShiftMod32(block, t);
  }

  // The simulator holds everything the plain direct-mapped cache holds.
  ghost predicate Covers(st: Sim, c: DM.Cache)
    requires st.Shape(Small) && c.Shape()
  {
    forall k :: 0 <= k < 32 && c.slots[k].Block? ==> Matches(st.sets[k][0], Truncated(c.slots[k].number) / 32)
  }

  // What one access does to the simulated cache when every set has one line.
  lemma AccessOneLine(st: Sim, address: int)
    requires st.Shape(Small)
    ensures var r := Access(st, Small, address); var k := (address / 32) % 32; var tag := address / 32 / 32;
            Matches(r.sets[k][0], tag)
            && (forall m :: 0 <= m < 32 && m != k ==> r.sets[m] == st.sets[m])
            && r.misses == st.misses + (if Matches(st.sets[k][0], tag) then 0 else 1)
  {
    assert PowerOfTwo(5) == 32;
    assert |Aged(st.sets[(address / 32) % 32])| == 1;
  }

  lemma AccessIsCovered(st: Sim, c: DM.Cache, x: int)
    requires st.Shape(Small) && c.Shape() && Covers(st, c)
    ensures var r, d := Access(st, Small, ToInt32(x)), DM.Touch(c, x / 32);
            Covers(r, d) && r.misses - st.misses <= d.misses - c.misses
  {
    TruncationKeepsSets(x);
    AccessOneLine(st, ToInt32(x));
  }

  lemma {:induction false} RunIsCovered(st: Sim, c: DM.Cache, a: int, b: int, trace: seq<Reference>)
    requires st.Shape(Small) && c.Shape() && Covers(st, c)
    ensures var r, d := RunFrom(st, Small, Addresses(a, b, trace)), DM.Run(c, Blocks(a, b, trace));
            Covers(r, d) && r.misses - st.misses <= d.misses - c.misses
  {
    if trace != [] {
      var front, x := trace[..|trace| - 1], AddressOf(a, b, trace[|trace| - 1]);
      RunIsCovered(st, c, a, b, front);
      assert Addresses(a, b, trace)[..|front|] == Addresses(a, b, front);
      assert Blocks(a, b, trace)[..|front|] == Blocks(a, b, front);
      AccessIsCovered(RunFrom(st, Small, Addresses(a, b, front)), DM.Run(c, Blocks(a, b, front)), x);
    }
  }

  // Both matrices start on a block boundary and are congruent modulo the cache size.
  ghost predicate Placed(a: int, b: int) { a % 32 == 0 && b % 32 == 0 && (a - b) % 1024 == 0 }

  lemma PlacedBlocks(a: int, b: int) returns (z: int)
    requires Placed(a, b)
    ensures b / 32 == a / 32 + 32 * z
  {
    z := (b - a) / 1024;
    assert b == a + 1024 * z;
  }

  lemma RowMoveBlocks(a: int, b: int, p: int, q: int, r: int)
    requires a % 32 == 0 && b % 32 == 0 && 0 <= r < 8
    ensures Blocks(a, b, RowMove(8 * p + r, 8 * q, 8)) == DM.RunBlocks(a / 32, b / 32, p, q, r)
  {
    var move := RowMove(8 * p + r, 8 * q, 8);
    var blocks, expected := Blocks(a, b, move), DM.RunBlocks(a / 32, b / 32, p, q, r);
    forall n | 0 <= n < 16 ensures blocks[n] == expected[n] {
      if n < 8 {
        assert AddressOf(a, b, move[n]) == 32 * (a / 32 + 4 * (8 * p + r) + q) + 4 * n;
      } else {
        assert AddressOf(a, b, move[n]) == 32 * (b / 32 + 4 * (8 * q + (n - 8)) + p) + 4 * r;
      }
    }
  }

  lemma RunOfTile(trace: seq<Reference>, p: int, q: int, r: int)
    requires InOrder(trace, 128) && 0 <= p < 4 && 0 <= q < 4 && 0 <= r < 8
    ensures var n := 32 * p + 8 * q + r; trace[16 * n..16 * n + 16] == RowMove(8 * p + r, 8 * q, 8)
  {
    RunPosition(8 * p, 8 * q, 8 * p + r);
  }

  lemma NextRunOfTile(a: int, b: int, segment: seq<Reference>, p: int, q: int, runs: nat)
    requires a % 32 == 0 && b % 32 == 0 && runs < 8
    requires Blocks(a, b, segment) == DM.PartOfTile(a / 32, b / 32, p, q, runs)
    ensures Blocks(a, b, segment + RowMove(8 * p + runs, 8 * q, 8)) == DM.PartOfTile(a / 32, b / 32, p, q, runs + 1)
  {
    RowMoveBlocks(a, b, p, q, runs);
    BlocksConcat(a, b, segment, RowMove(8 * p + runs, 8 * q, 8));
  }

  // Tile (p, q) of the trace references the blocks of that tile.
  lemma {:induction false} TileOfTrace(a: int, b: int, trace: seq<Reference>, p: int, q: int, runs: nat)
    requires a % 32 == 0 && b % 32 == 0 && InOrder(trace, 128) && 0 <= p < 4 && 0 <= q < 4 && runs <= 8
    ensures var start := 512 * p + 128 * q;
            Blocks(a, b, trace[start..start + 16 * runs]) == DM.PartOfTile(a / 32, b / 32, p, q, runs)
  {
    if runs > 0 {
      var start := 512 * p + 128 * q;
      var middle := start + 16 * (runs - 1);
      TileOfTrace(a, b, trace, p, q, runs - 1);
      RunOfTile(trace, p, q, runs - 1);
      NextRunOfTile(a, b, trace[start..middle], p, q, runs - 1);
      assert trace[start..middle + 16] == trace[start..middle] + trace[middle..middle + 16];
    }
  }

  // Each off-diagonal tile costs at most 16 misses and each diagonal tile at most 23, from any state.
  lemma TileCost(st: Sim, a: int, b: int, tile: seq<Reference>, p: int, q: int)
    requires st.Shape(Small) && Placed(a, b) && 0 <= p < 4 && 0 <= q < 4
    requires Blocks(a, b, tile) == DM.Tile(a / 32, b / 32, p, q)
    ensures RunFrom(st, Small, Addresses(a, b, tile)).misses <= st.misses + (if p == q then 23 else 16)
  {
    var cold := DM.Cache(seq(32, _ => DM.Empty), 0);
    RunIsCovered(st, cold, a, b, tile);
    var z := PlacedBlocks(a, b);
    DM.TileCost(cold, a / 32, b / 32, z, p, q);
  }

  lemma BlocksConcat(a: int, b: int, s: seq<Reference>, t: seq<Reference>)
    ensures Blocks(a, b, s + t) == Blocks(a, b, s) + Blocks(a, b, t)
  {
  }

  // Part [512 p + 128 q, 512 p + 128 q + 128) of the trace references the blocks of tile (p, q).
  ghost predicate InTiles(a: int, b: int, trace: seq<Reference>, x: int, y: int) {
    && |trace| == 2048
    && forall p, q :: 0 <= p < 4 && 0 <= q < 4 ==>
         Blocks(a, b, trace[512 * p + 128 * q..512 * p + 128 * q + 128]) == DM.Tile(x, y, p, q)
  }

  lemma OrderedTraceInTiles(a: int, b: int, trace: seq<Reference>)
    requires a % 32 == 0 && b % 32 == 0 && InOrder(trace, 128)
    ensures InTiles(a, b, trace, a / 32, b / 32)
  {
    forall p, q | 0 <= p < 4 && 0 <= q < 4
      ensures Blocks(a, b, trace[512 * p + 128 * q..512 * p + 128 * q + 128]) == DM.Tile(a / 32, b / 32, p, q)
    {
      TileOfTrace(a, b, trace, p, q, 8);
    }
  }

  // So the references before tile (p, q) are to the blocks of the tiles before it.
  lemma {:induction false} TilesOfTrace(a: int, b: int, trace: seq<Reference>, x: int, y: int, p: int, q: int, end: nat)
    requires InTiles(a, b, trace, x, y) && 0 <= p < 4 && 0 <= q <= 4 && end == 512 * p + 128 * q
    ensures Blocks(a, b, trace[..end]) == DM.TilesBefore(x, y, p, q)
    decreases p, q
  {
    if q > 0 {
      var start := end - 128;
      TilesOfTrace(a, b, trace, x, y, p, q - 1, start);
      BlocksConcat(a, b, trace[..start], trace[start..end]);
      assert trace[..end] == trace[..start] + trace[start..end];
      assert Blocks(a, b, trace[start..end]) == DM.Tile(x, y, p, q - 1);
    } else if p > 0 {
      TilesOfTrace(a, b, trace, x, y, p - 1, 4, end);
    }
  }

  lemma CostOfTiles(st: Sim, a: int, b: int, trace: seq<Reference>)
    requires st.Shape(Small) && Placed(a, b) && Blocks(a, b, trace) == DM.TilesBefore(a / 32, b / 32, 3, 4)
    ensures RunFrom(st, Small, Addresses(a, b, trace)).misses <= st.misses + 284
  {
    var cold := DM.Cache(seq(32, _ => DM.Empty), 0);
    RunIsCovered(st, cold, a, b, trace);
    var z := PlacedBlocks(a, b);
    DM.TilesCost(cold, a / 32, b / 32, z, 3, 4);
  }

  // The whole 32 by 32 transpose misses at most 284 times.
  lemma TransposeMisses(st: Sim, a: int, b: int, trace: seq<Reference>)
    requires st.Shape(Small) && Placed(a, b) && InOrder(trace, 128)
    ensures RunFrom(st, Small, Addresses(a, b, trace)).misses <= st.misses + 284
  {
    OrderedTraceInTiles(a, b, trace);
    TilesOfTrace(a, b, trace, a / 32, b / 32, 3, 4, 2048);
    assert trace[..2048] == trace;
    CostOfTiles(st, a, b, trace);
  }

  // The submitted transpose itself, observed on the simulator.
  method SubmitOnCache(m: Matrices, ghost st: Sim, ghost a: int, ghost b: int) returns (ghost after: Sim)
    requires m.Shapes() && m.M == m.N == 32 && m.trace == [] && st.Shape(Small) && Placed(a, b)
    modifies m`trace, m.B
    ensures Transposed(m.A, m.B) && TouchesEachOnce(m.trace, 32, 32)
    ensures after == RunFrom(st, Small, Addresses(a, b, m.trace)) && after.misses <= st.misses + 284
  {
    m.Submit();
    TransposeMisses(st, a, b, m.trace);
    after := RunFrom(st, Small, Addresses(a, b, m.trace));
  }
}
