// A direct-mapped cache of 32 blocks, on block numbers, and the tile structure of the transpose on it.
module DirectMapped {
  datatype Slot = Empty | Block(number: int)

  datatype Cache = Cache(slots: seq<Slot>, misses: int) {
    predicate Shape() { |slots| == 32 }

    predicate Held(block: int)
      requires Shape()
    {
      slots[block % 32] == Block(block)
    }
  }

  function Touch(c: Cache, block: int): (r: Cache)
    requires c.Shape()
    ensures r.Shape() && r.Held(block)
    ensures r.misses == c.misses + (if c.Held(block) then 0 else 1)
    ensures forall k :: 0 <= k < 32 && k != block % 32 ==> r.slots[k] == c.slots[k]
  {
    Cache(c.slots[block % 32 := Block(block)], c.misses + (if c.Held(block) then 0 else 1))
  }

  function Run(c: Cache, blocks: seq<int>): (r: Cache)
    requires c.Shape()
    ensures r.Shape()
  {
    if blocks == [] then c else Touch(Run(c, blocks[..|blocks| - 1]), blocks[|blocks| - 1])
  }

  lemma {:induction false} RunConcat(c: Cache, xs: seq<int>, ys: seq<int>)
    requires c.Shape()
    ensures Run(c, xs + ys) == Run(Run(c, xs), ys)
  {
    if ys == [] {
      assert xs + ys == xs;
    } else {
      RunConcat(c, xs, ys[..|ys| - 1]);
      assert (xs + ys)[..|xs + ys| - 1] == xs + ys[..|ys| - 1];
    }
  }

  // Any number of references to one block cost at most one miss, and none if it is held.
  lemma {:induction false} OneBlock(c: Cache, blocks: seq<int>, block: int)
    requires c.Shape() && forall p :: 0 <= p < |blocks| ==> blocks[p] == block
    ensures var r := Run(c, blocks);
            (forall k :: 0 <= k < 32 && k != block % 32 ==> r.slots[k] == c.slots[k])
            && r.misses <= c.misses + 1
            && (blocks != [] ==> r.Held(block))
            && (blocks == [] || c.Held(block) ==> r.misses == c.misses)
  {
    if blocks != [] {
      OneBlock(c, blocks[..|blocks| - 1], block);
    }
  }

  predicate DifferentSets(blocks: seq<int>) {
    forall m, n :: 0 <= m < n < |blocks| ==> blocks[m] % 32 != blocks[n] % 32
  }

  predicate AllHeld(c: Cache, blocks: seq<int>)
    requires c.Shape()
  {
    forall m :: 0 <= m < |blocks| ==> c.Held(blocks[m])
  }

  function Absent(c: Cache, blocks: seq<int>): nat
    requires c.Shape()
  {
    if blocks == [] then 0
    else Absent(c, blocks[..|blocks| - 1]) + (if c.Held(blocks[|blocks| - 1]) then 0 else 1)
  }

  // References to blocks of different sets miss exactly on the blocks that were not held.
  lemma {:induction false} ManyBlocks(c: Cache, blocks: seq<int>)
    requires c.Shape() && DifferentSets(blocks)
    ensures var r := Run(c, blocks);
            AllHeld(r, blocks)
            && r.misses == c.misses + Absent(c, blocks)
            && (forall k :: 0 <= k < 32 && (forall m :: 0 <= m < |blocks| ==> blocks[m] % 32 != k) ==>
                  r.slots[k] == c.slots[k])
  {
    if blocks != [] {
      var last := |blocks| - 1;
      var front := blocks[..last];
      assert forall m :: 0 <= m < last ==> front[m] == blocks[m];
      ManyBlocks(c, front);
      var mid := Run(c, front);
      assert mid.slots[blocks[last] % 32] == c.slots[blocks[last] % 32];
      forall m | 0 <= m < |blocks| ensures Run(c, blocks).Held(blocks[m]) {
        if m < last {
          assert mid.Held(front[m]);
        }
      }
    }
  }

  lemma {:induction false} AbsentExcept(c: Cache, blocks: seq<int>, missing: int)
    requires c.Shape()
    requires forall m :: 0 <= m < |blocks| && m != missing ==> c.Held(blocks[m])
    ensures Absent(c, blocks) <= if 0 <= missing < |blocks| then 1 else 0
  {
    if blocks != [] {
      var last := |blocks| - 1;
      assert forall m :: 0 <= m < last ==> blocks[..last][m] == blocks[m];
      AbsentExcept(c, blocks[..last], missing);
    }
  }

  lemma {:induction false} AbsentAtMost(c: Cache, blocks: seq<int>)
    requires c.Shape()
    ensures Absent(c, blocks) <= |blocks|
  {
    if blocks != [] {
      AbsentAtMost(c, blocks[..|blocks| - 1]);
    }
  }

  // Matrices of 32 rows of four blocks: rows of A from block a on, rows of B from block b on.
  function RowBlock(base: int, row: int, tile: int): int { base + 4 * row + tile }

  function TileBlocks(b: int, p: int, q: int): (blocks: seq<int>)
    ensures |blocks| == 8 && forall m :: 0 <= m < 8 ==> blocks[m] == RowBlock(b, 8 * q + m, p)
  {
    seq(8, m => RowBlock(b, 8 * q + m, p))
  }

  // Blocks of one run of tile (p, q): eight loads from one row of A, one store into each of eight rows of B.
  function RunBlocks(a: int, b: int, p: int, q: int, r: int): seq<int> {
    seq(8, m => RowBlock(a, 8 * p + r, q)) + TileBlocks(b, p, q)
  }

  lemma ApartMod32(x: int, y: int, d: int, z: int)
    requires x - y == d + 32 * z && -32 < d < 32 && d != 0
    ensures x % 32 != y % 32
  {
  }

  // Sets of B's blocks differ from each other, and from the set of A's block except in the
  // same row of a diagonal tile.
  lemma TileSets(a: int, b: int, z: int, p: int, q: int, r: int)
    requires b == a + 32 * z && 0 <= p < 4 && 0 <= q < 4 && 0 <= r < 8
    ensures DifferentSets(TileBlocks(b, p, q))
    ensures forall m :: 0 <= m < 8 && (p != q || m != r) ==>
              TileBlocks(b, p, q)[m] % 32 != RowBlock(a, 8 * p + r, q) % 32
  {
    var blocks := TileBlocks(b, p, q);
    forall m, n | 0 <= m < n < 8 ensures blocks[m] % 32 != blocks[n] % 32 {
      ApartMod32(blocks[m], blocks[n], 4 * (m - n), 0);
    }
    forall m | 0 <= m < 8 && (p != q || m != r) ensures blocks[m] % 32 != RowBlock(a, 8 * p + r, q) % 32 {
      ApartMod32(blocks[m], RowBlock(a, 8 * p + r, q), 4 * (m - r) + p - q, q - p + z);
    }
  }

  // One run: at most 9 misses, and at most 1, or 2 on the diagonal, when B's blocks are already there.
  lemma RunCost(c: Cache, a: int, b: int, z: int, p: int, q: int, r: int)
    requires c.Shape() && b == a + 32 * z && 0 <= p < 4 && 0 <= q < 4 && 0 <= r < 8
    ensures var after := Run(c, RunBlocks(a, b, p, q, r));
            AllHeld(after, TileBlocks(b, p, q))
            && after.misses <= c.misses + 9
            && (AllHeld(c, TileBlocks(b, p, q)) ==> after.misses <= c.misses + (if p == q then 2 else 1))
  {
    var source := RowBlock(a, 8 * p + r, q);
    var loads, blocks := seq(8, m => source), TileBlocks(b, p, q);
    assert RunBlocks(a, b, p, q, r) == loads + blocks;
    RunConcat(c, loads, blocks);
    OneBlock(c, loads, source);
    var mid := Run(c, loads);
    TileSets(a, b, z, p, q, r);
    ManyBlocks(mid, blocks);
    AbsentAtMost(mid, blocks);
    if AllHeld(c, blocks) {
      var shared := if p == q then r else -1;
      forall m | 0 <= m < 8 && m != shared ensures mid.Held(blocks[m]) {
        assert c.Held(blocks[m]);
      }
      AbsentExcept(mid, blocks, shared);
    }
  }

  function PartOfTile(a: int, b: int, p: int, q: int, runs: nat): seq<int> {
    if runs == 0 then [] else PartOfTile(a, b, p, q, runs - 1) + RunBlocks(a, b, p, q, runs - 1)
  }

  lemma {:induction false} PartialTileCost(c: Cache, a: int, b: int, z: int, p: int, q: int, runs: nat)
    requires c.Shape() && b == a + 32 * z && 0 <= p < 4 && 0 <= q < 4 && runs <= 8
    ensures var after := Run(c, PartOfTile(a, b, p, q, runs));
            (runs > 0 ==> AllHeld(after, TileBlocks(b, p, q)))
            && after.misses <= c.misses + (if runs == 0 then 0 else 9 + (runs - 1) * (if p == q then 2 else 1))
  {
    if runs > 0 {
      PartialTileCost(c, a, b, z, p, q, runs - 1);
      var front := PartOfTile(a, b, p, q, runs - 1);
      RunConcat(c, front, RunBlocks(a, b, p, q, runs - 1));
      RunCost(Run(c, front), a, b, z, p, q, runs - 1);
    }
  }

  function Tile(a: int, b: int, p: int, q: int): seq<int> { PartOfTile(a, b, p, q, 8) }

  // A whole tile: 9 misses for its first run, then 1 each, or 2 on the diagonal.
  lemma TileCost(c: Cache, a: int, b: int, z: int, p: int, q: int)
    requires c.Shape() && b == a + 32 * z && 0 <= p < 4 && 0 <= q < 4
    ensures Run(c, Tile(a, b, p, q)).misses <= c.misses + (if p == q then 23 else 16)
  {
    PartialTileCost(c, a, b, z, p, q, 8);
  }

  lemma OneMoreTile(c: Cache, front: seq<int>, a: int, b: int, z: int, p: int, q: int)
    requires c.Shape() && b == a + 32 * z && 0 <= p < 4 && 0 <= q < 4
    ensures Run(c, front + Tile(a, b, p, q)).misses <= Run(c, front).misses + (if p == q then 23 else 16)
  {
    RunConcat(c, front, Tile(a, b, p, q));
    TileCost(Run(c, front), a, b, z, p, q);
  }

  // The tiles before tile (p, q) in the order of the nest.
  function TilesBefore(a: int, b: int, p: int, q: int): seq<int>
    requires p >= 0 && q >= 0
    decreases p, q
  {
    if q > 0 then TilesBefore(a, b, p, q - 1) + Tile(a, b, p, q - 1)
    else if p > 0 then TilesBefore(a, b, p - 1, 4)
    else []
  }

  // What they may cost: 71 for each row of four tiles, its diagonal one included.
  function Budget(p: int, q: int): int { 71 * p + 16 * q + (if q > p then 7 else 0) }

  lemma {:induction false} TilesCost(c: Cache, a: int, b: int, z: int, p: int, q: int)
    requires c.Shape() && b == a + 32 * z && 0 <= p < 4 && 0 <= q <= 4
    ensures Run(c, TilesBefore(a, b, p, q)).misses <= c.misses + Budget(p, q)
    decreases p, q
  {
    if q > 0 {
      TilesCost(c, a, b, z, p, q - 1);
      OneMoreTile(c, TilesBefore(a, b, p, q - 1), a, b, z, p, q - 1);
    } else if p > 0 {
      TilesCost(c, a, b, z, p - 1, 4);
    }
  }
}
