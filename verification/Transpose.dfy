// The cache-aware matrix transpose: every handled shape copies each cell exactly once.
module Transpose {

  // One reference of the program to matrix memory: a load from A or a store into B.
  datatype Reference = Load(row: int, col: int) | Store(row: int, col: int)

  ghost predicate Once(trace: seq<Reference>) {
    forall p, q :: 0 <= p < q < |trace| ==> trace[p] != trace[q]
  }

  // The source moves a run of w elements of row k of A: all loads first, then all stores.
  function RowMove(k: int, j: int, w: nat): (t: seq<Reference>)
    ensures |t| == 2 * w
    ensures forall p :: 0 <= p < w ==> t[p] == Load(k, j + p)
    ensures forall p :: w <= p < 2 * w ==> t[p] == Store(j + p - w, k)
  {
    Loads(k, j, w) + Stores(k, j, w)
  }

  function Loads(k: int, j: int, w: nat): seq<Reference> { seq(w, m => Load(k, j + m)) }

  function Stores(k: int, j: int, w: nat): seq<Reference> { seq(w, m => Store(j + m, k)) }

  lemma InHalves(start: seq<Reference>, k: int, j: int)
    ensures start + Loads(k, j, 4) + Loads(k, j + 4, 4) + Stores(k, j, 4) + Stores(k, j + 4, 4) == start + RowMove(k, j, 8)
  {
  }

  ghost predicate Transposed(A: array2<int>, B: array2<int>)
    requires A.Length0 == B.Length1 && A.Length1 == B.Length0
    reads A, B
  {
    forall r, c :: 0 <= r < B.Length0 && 0 <= c < B.Length1 ==> B[r, c] == A[c, r]
  }

  // Every element of A is loaded once, every element of B stored once, and nothing else is touched.
  ghost predicate TouchesEachOnce(trace: seq<Reference>, M: nat, N: nat) {
    && Once(trace)
    && (forall r, c :: Store(r, c) in trace <==> 0 <= r < M && 0 <= c < N)
    && (forall r, c :: Load(c, r) in trace <==> 0 <= r < M && 0 <= c < N)
  }

  lemma RowMoveContents(k: int, j: int, w: nat)
    ensures Once(RowMove(k, j, w))
    ensures forall r, c :: Store(r, c) in RowMove(k, j, w) <==> c == k && j <= r < j + w
    ensures forall r, c :: Load(c, r) in RowMove(k, j, w) <==> c == k && j <= r < j + w
  {
    var t := RowMove(k, j, w);
    forall r, c | c == k && j <= r < j + w ensures Store(r, c) in t && Load(c, r) in t {
      assert t[r - j] == Load(c, r) && t[w + (r - j)] == Store(r, c);
    }
  }

  lemma OnceConcat(s: seq<Reference>, t: seq<Reference>)
    requires Once(s) && Once(t) && forall a :: a in s ==> a !in t
    ensures Once(s + t)
  {
    forall p, q | 0 <= p < q < |s + t| ensures (s + t)[p] != (s + t)[q] {
      if p < |s| <= q {
        assert s[p] in s && t[q - |s|] in t;
      }
    }
  }

  // The references added to a trace are those of a run of w elements, once each.
  ghost predicate Extends(longer: seq<Reference>, trace: seq<Reference>, k: int, j: int, w: int) {
    && Once(longer)
    && (forall r, c :: Store(r, c) in longer <==> Store(r, c) in trace || (c == k && j <= r < j + w))
    && (forall r, c :: Load(c, r) in longer <==> Load(c, r) in trace || (c == k && j <= r < j + w))
  }

  lemma AppendRowMove(trace: seq<Reference>, k: int, j: int, w: nat)
    requires Once(trace)
    requires forall r :: j <= r < j + w ==> Store(r, k) !in trace
    requires forall r :: j <= r < j + w ==> Load(k, r) !in trace
    ensures Extends(trace + RowMove(k, j, w), trace, k, j, w)
  {
    RowMoveContents(k, j, w);
    forall a | a in trace ensures a !in RowMove(k, j, w) {
      match a case Load(_, _) => case Store(_, _) =>
    }
    OnceConcat(trace, RowMove(k, j, w));
  }

  // Cells of B finished when the nest over T-by-T tiles stands at tile (i, j) and row k of A;
  // tiles cover the rows of B below limit.
  predicate TileDone(T: int, limit: int, i: int, j: int, k: int, r: int, c: int) {
    || (0 <= r < limit && 0 <= c < i)
    || (0 <= r < j && i <= c < i + T)
    || (j <= r < j + T && i <= c < k)
  }

  // The references made so far are those of the finished cells, each once.
  ghost predicate Recorded(trace: seq<Reference>, T: int, limit: int, i: int, j: int, k: int) {
    && Once(trace)
    && (forall r, c :: Store(r, c) in trace <==> TileDone(T, limit, i, j, k, r, c))
    && (forall r, c :: Load(c, r) in trace <==> TileDone(T, limit, i, j, k, r, c))
  }

  ghost predicate Progress(A: array2<int>, B: array2<int>, trace: seq<Reference>,
                           T: int, limit: int, i: int, j: int, k: int)
    requires A.Length0 == B.Length1 && A.Length1 == B.Length0
    reads A, B
  {
    && Recorded(trace, T, limit, i, j, k)
    && (forall r, c :: 0 <= r < B.Length0 && 0 <= c < B.Length1 && TileDone(T, limit, i, j, k, r, c) ==>
          B[r, c] == A[c, r])
  }

  // The part [j, j + T) of row k adds exactly the cells of that row of the tile.
  lemma RowOfTile(trace: seq<Reference>, T: int, limit: int, i: int, j: int, k: int)
    requires 0 <= j <= j + T <= limit && 0 <= i <= k < i + T
    requires Recorded(trace, T, limit, i, j, k)
    ensures Recorded(trace + RowMove(k, j, T), T, limit, i, j, k + 1)
  {
    assert forall r :: j <= r < j + T ==> !TileDone(T, limit, i, j, k, r, k);
    AppendRowMove(trace, k, j, T);
  }

  lemma NextTile(A: array2<int>, B: array2<int>, trace: seq<Reference>, T: int, limit: int, i: int, j: int)
    requires A.Length0 == B.Length1 && A.Length1 == B.Length0 && T >= 1 && j >= 0
    requires Progress(A, B, trace, T, limit, i, j, i + T)
    ensures Progress(A, B, trace, T, limit, i, j + T, i)
  {
    var k, j' := i + T, j + T;
    assert forall r, c :: TileDone(T, limit, i, j, k, r, c) == TileDone(T, limit, i, j', i, r, c);
  }

  lemma NextTileRow(A: array2<int>, B: array2<int>, trace: seq<Reference>, T: int, limit: int, i: int)
    requires A.Length0 == B.Length1 && A.Length1 == B.Length0 && T >= 1 && i >= 0
    requires Progress(A, B, trace, T, limit, i, limit, i)
    ensures Progress(A, B, trace, T, limit, i + T, 0, i + T)
  {
    var i' := i + T;
    assert forall r, c :: TileDone(T, limit, i, limit, i, r, c) == TileDone(T, limit, i', 0, i', r, c);
  }

  // The n-th run of 8 elements moved by the 32 by 32 nest starts at A[RunRow(n)][RunColumn(n)].
  function RunRow(n: int): int { 8 * (n / 32) + n % 8 }

  function RunColumn(n: int): int { 8 * ((n / 8) % 4) }

  // The trace of the first `runs` runs, reference by reference.
  ghost predicate InOrder(trace: seq<Reference>, runs: int) {
    && |trace| == 16 * runs
    && forall n :: 0 <= n < runs ==> trace[16 * n..16 * n + 16] == RowMove(RunRow(n), RunColumn(n), 8)
  }

  lemma RunPosition(i: int, j: int, k: int)
    requires 0 <= i <= k < i + 8 && 0 <= j <= 24 && i % 8 == 0 && j % 8 == 0
    ensures RunRow(4 * i + j + (k - i)) == k && RunColumn(4 * i + j + (k - i)) == j
  {
    var p, q, d := i / 8, j / 8, k - i;
    var runs := 32 * p + (8 * q + d);
    assert runs / 32 == p;
    assert runs == 8 * (4 * p + q) + d;
    assert runs / 8 == 4 * p + q && runs % 8 == d;
  }

  lemma NextRun(trace: seq<Reference>, i: int, j: int, k: int)
    requires 0 <= i <= k < i + 8 && 0 <= j <= 24 && i % 8 == 0 && j % 8 == 0
    requires InOrder(trace, 4 * i + j + (k - i))
    ensures InOrder(trace + RowMove(k, j, 8), 4 * i + j + (k - i) + 1)
  {
    var runs := 4 * i + j + (k - i);
    var longer := trace + RowMove(k, j, 8);
    RunPosition(i, j, k);
    forall n | 0 <= n < runs + 1 ensures longer[16 * n..16 * n + 16] == RowMove(RunRow(n), RunColumn(n), 8) {
      if n < runs {
        assert longer[16 * n..16 * n + 16] == trace[16 * n..16 * n + 16];
      }
    }
  }

  // Rows of B covered by whole tiles in the nest with strict bounds j + 16 < M.
  function TileLimit(M: nat): (limit: nat)
    ensures limit % 16 == 0 && limit <= M
    ensures limit < M || M == 0
  {
    if M == 0 then 0 else 16 * ((M - 1) / 16)
  }

  lemma HalfRows(trace: seq<Reference>, limit: int, i: int, j: int, k: int)
    requires 0 <= j <= j + 16 <= limit && 0 <= i <= k < i + 16
    requires Recorded(trace, 16, limit, i, j, k)
    ensures Recorded(trace + RowMove(k, j, 8) + RowMove(k, j + 8, 8), 16, limit, i, j, k + 1)
  {
    assert forall r :: j <= r < j + 16 ==> !TileDone(16, limit, i, j, k, r, k);
    AppendRowMove(trace, k, j, 8);
    AppendRowMove(trace + RowMove(k, j, 8), k, j + 8, 8);
  }

  // Cells finished in the loop over the last rows of A, standing at A[k][l].
  predicate LastRowsDone(M: int, limit: int, i: int, k: int, l: int, r: int, c: int) {
    (0 <= r < limit && 0 <= c < i) || (0 <= r < M && i <= c < k) || (0 <= r < l && c == k)
  }

  ghost predicate RowsRecorded(trace: seq<Reference>, M: int, limit: int, i: int, k: int, l: int) {
    && Once(trace)
    && (forall r, c :: Store(r, c) in trace <==> LastRowsDone(M, limit, i, k, l, r, c))
    && (forall r, c :: Load(c, r) in trace <==> LastRowsDone(M, limit, i, k, l, r, c))
  }

  lemma OneMoreInRow(trace: seq<Reference>, longer: seq<Reference>, M: int, limit: int, i: int, k: int, l: int)
    requires 0 <= limit <= M && 0 <= l < M && 0 <= i <= k
    requires RowsRecorded(trace, M, limit, i, k, l) && Extends(longer, trace, k, l, 1)
    ensures RowsRecorded(longer, M, limit, i, k, l + 1)
  {
  }

  lemma RecordLastRow(trace: seq<Reference>, M: int, limit: int, i: int, k: int, l: int)
    requires 0 <= limit <= M && 0 <= l < M && 0 <= i <= k && RowsRecorded(trace, M, limit, i, k, l)
    ensures RowsRecorded(trace + RowMove(k, l, 1), M, limit, i, k, l + 1)
  {
    assert !LastRowsDone(M, limit, i, k, l, l, k);
    AppendRowMove(trace, k, l, 1);
    OneMoreInRow(trace, trace + RowMove(k, l, 1), M, limit, i, k, l);
  }

  ghost predicate LastRowsProgress(A: array2<int>, B: array2<int>, trace: seq<Reference>,
                                   limit: int, i: int, k: int, l: int)
    requires A.Length0 == B.Length1 && A.Length1 == B.Length0
    reads A, B
  {
    && RowsRecorded(trace, B.Length0, limit, i, k, l)
    && (forall r, c :: 0 <= r < B.Length0 && 0 <= c < B.Length1 && LastRowsDone(B.Length0, limit, i, k, l, r, c) ==>
          B[r, c] == A[c, r])
  }

  lemma NextLastRow(A: array2<int>, B: array2<int>, trace: seq<Reference>, limit: int, i: int, k: int)
    requires A.Length0 == B.Length1 && A.Length1 == B.Length0 && 0 <= i <= k
    requires LastRowsProgress(A, B, trace, limit, i, k, B.Length0)
    ensures LastRowsProgress(A, B, trace, limit, i, k + 1, 0)
  {
    var M, k' := B.Length0, k + 1;
    assert forall r, c :: LastRowsDone(M, limit, i, k, M, r, c) == LastRowsDone(M, limit, i, k', 0, r, c);
  }

  // Cells finished in the loop over the last columns of A, standing at A[k][l].
  predicate LastColumnsDone(M: int, N: int, limit: int, i: int, k: int, l: int, r: int, c: int) {
    || (0 <= r < limit && 0 <= c < i)
    || (0 <= r < M && i <= c < N)
    || (limit <= r < M && 0 <= c < k)
    || (limit <= r < l && c == k < i)
  }

  ghost predicate ColumnsRecorded(trace: seq<Reference>, M: int, N: int, limit: int, i: int, k: int, l: int) {
    && Once(trace)
    && (forall r, c :: Store(r, c) in trace <==> LastColumnsDone(M, N, limit, i, k, l, r, c))
    && (forall r, c :: Load(c, r) in trace <==> LastColumnsDone(M, N, limit, i, k, l, r, c))
  }

  lemma OneMoreInColumns(trace: seq<Reference>, longer: seq<Reference>, M: int, N: int, limit: int, i: int, k: int, l: int)
    requires 0 <= limit <= l < M && 0 <= k < i <= N
    requires ColumnsRecorded(trace, M, N, limit, i, k, l) && Extends(longer, trace, k, l, 1)
    ensures ColumnsRecorded(longer, M, N, limit, i, k, l + 1)
  {
  }

  lemma RecordLastColumn(trace: seq<Reference>, M: int, N: int, limit: int, i: int, k: int, l: int)
    requires 0 <= limit <= l < M && 0 <= k < i <= N && ColumnsRecorded(trace, M, N, limit, i, k, l)
    ensures ColumnsRecorded(trace + RowMove(k, l, 1), M, N, limit, i, k, l + 1)
  {
    assert !LastColumnsDone(M, N, limit, i, k, l, l, k);
    AppendRowMove(trace, k, l, 1);
    OneMoreInColumns(trace, trace + RowMove(k, l, 1), M, N, limit, i, k, l);
  }

  lemma NextColumn(A: array2<int>, B: array2<int>, trace: seq<Reference>, limit: int, i: int, k: int)
    requires A.Length0 == B.Length1 && A.Length1 == B.Length0 && 0 <= k < i <= B.Length1 && 0 <= limit <= B.Length0
    requires LastColumnsProgress(A, B, trace, limit, i, k, B.Length0)
    ensures LastColumnsProgress(A, B, trace, limit, i, k + 1, limit)
  {
    var M, N, k' := B.Length0, B.Length1, k + 1;
    assert forall r, c :: LastColumnsDone(M, N, limit, i, k, M, r, c) == LastColumnsDone(M, N, limit, i, k', limit, r, c);
  }

  ghost predicate LastColumnsProgress(A: array2<int>, B: array2<int>, trace: seq<Reference>,
                                      limit: int, i: int, k: int, l: int)
    requires A.Length0 == B.Length1 && A.Length1 == B.Length0
    reads A, B
  {
    && ColumnsRecorded(trace, B.Length0, B.Length1, limit, i, k, l)
    && (forall r, c :: 0 <= r < B.Length0 && 0 <= c < B.Length1 &&
                       LastColumnsDone(B.Length0, B.Length1, limit, i, k, l, r, c) ==>
          B[r, c] == A[c, r])
  }

  // The two matrices in memory, and a record that grows with every access to them.
  class Matrices {
    const M: nat
    const N: nat
    const A: array2<int>
    const B: array2<int>
    ghost var trace: seq<Reference>

    ghost predicate Shapes() {
      A.Length0 == N && A.Length1 == M && B.Length0 == M && B.Length1 == N && A != B
    }

    constructor (M: nat, N: nat, A: array2<int>, B: array2<int>)
      requires A.Length0 == N && A.Length1 == M && B.Length0 == M && B.Length1 == N && A != B
      ensures Shapes() && this.M == M && this.N == N && this.A == A && this.B == B && trace == []
    {
      this.M, this.N, this.A, this.B := M, N, A, B;
      trace := [];
    }

    // Read A[k][j].
    method Get(k: int, j: int) returns (x: int)
      requires 0 <= k < A.Length0 && 0 <= j < A.Length1
      modifies `trace
      ensures x == A[k, j] && trace == old(trace) + [Load(k, j)]
    {
      trace := trace + [Load(k, j)];
      return A[k, j];
    }

    // Write B[j][k].
    method Put(j: int, k: int, x: int)
      requires 0 <= j < B.Length0 && 0 <= k < B.Length1
      modifies `trace, B
      ensures trace == old(trace) + [Store(j, k)] && B[j, k] == x
      ensures forall r, c :: 0 <= r < B.Length0 && 0 <= c < B.Length1 && !(r == j && c == k) ==> B[r, c] == old(B[r, c])
    {
      trace := trace + [Store(j, k)];
      B[j, k] := x;
    }

    // The four loads, and the four stores, of half a run of 8.
    method Load4(k: int, j: int) returns (a: int, b: int, c: int, d: int)
      requires Shapes() && 0 <= k < N && 0 <= j <= j + 4 <= M
      modifies `trace
      ensures trace == old(trace) + Loads(k, j, 4)
      ensures a == A[k, j] && b == A[k, j + 1] && c == A[k, j + 2] && d == A[k, j + 3]
    {
      ghost var start := trace;
      a := Get(k, j);
      b := Get(k, j + 1);
      c := Get(k, j + 2);
      d := Get(k, j + 3);
      assert trace == start + Loads(k, j, 4);
    }

    method Store4(j: int, k: int, a: int, b: int, c: int, d: int)
      requires Shapes() && 0 <= k < N && 0 <= j <= j + 4 <= M
      modifies `trace, B
      ensures trace == old(trace) + Stores(k, j, 4)
      ensures B[j, k] == a && B[j + 1, k] == b && B[j + 2, k] == c && B[j + 3, k] == d
      ensures forall r, c :: 0 <= r < M && 0 <= c < N && !(c == k && j <= r < j + 4) ==> B[r, c] == old(B[r, c])
    {
      ghost var start := trace;
      Put(j, k, a);
      Put(j + 1, k, b);
      Put(j + 2, k, c);
      Put(j + 3, k, d);
      assert trace == start + Stores(k, j, 4);
    }

    method Move8(k: int, j: int)
      requires Shapes() && 0 <= k < N && 0 <= j <= j + 8 <= M
      modifies `trace, B
      ensures trace == old(trace) + RowMove(k, j, 8)
      ensures forall r, c :: 0 <= r < M && 0 <= c < N ==>
                B[r, c] == if c == k && j <= r < j + 8 then A[k, r] else old(B[r, c])
    {
      ghost var start := trace;
      var a, b, c, d := Load4(k, j);
      var e, f, g, h := Load4(k, j + 4);
      Store4(j, k, a, b, c, d);
      Store4(j + 4, k, e, f, g, h);
      InHalves(start, k, j);
    }

    method Move4(k: int, j: int)
      requires Shapes() && 0 <= k < N && 0 <= j <= j + 4 <= M
      modifies `trace, B
      ensures trace == old(trace) + RowMove(k, j, 4)
      ensures forall r, c :: 0 <= r < M && 0 <= c < N ==>
                B[r, c] == if c == k && j <= r < j + 4 then A[k, r] else old(B[r, c])
    {
      ghost var start := trace;
      var a, b, c, d := Load4(k, j);
      Store4(j, k, a, b, c, d);
      assert trace == start + RowMove(k, j, 4);
    }

    // B[l][k] = A[k][l]
    method MoveCell(k: int, l: int)
      requires Shapes() && 0 <= k < N && 0 <= l < M
      modifies `trace, B
      ensures trace == old(trace) + RowMove(k, l, 1) && B[l, k] == A[k, l]
      ensures forall r, c :: 0 <= r < M && 0 <= c < N && !(r == l && c == k) ==> B[r, c] == old(B[r, c])
    {
      ghost var start := trace;
      var x := Get(k, l);
      Put(l, k, x);
      assert trace == start + RowMove(k, l, 1);
    }

    // One iteration of the innermost loop, in each of the three nests.
    method MoveRow8(k: int, j: int, ghost limit: int, ghost i: int)
      requires Shapes() && 0 <= k < N && 0 <= j <= j + 8 <= limit <= M && 0 <= i <= k < i + 8
      requires Progress(A, B, trace, 8, limit, i, j, k)
      modifies `trace, B
      ensures trace == old(trace) + RowMove(k, j, 8) && Progress(A, B, trace, 8, limit, i, j, k + 1)
    {
      RowOfTile(trace, 8, limit, i, j, k);
      Move8(k, j);
    }

    method MoveRow4(k: int, j: int, ghost limit: int, ghost i: int)
      requires Shapes() && 0 <= k < N && 0 <= j <= j + 4 <= limit <= M && 0 <= i <= k < i + 4
      requires Progress(A, B, trace, 4, limit, i, j, k)
      modifies `trace, B
      ensures trace == old(trace) + RowMove(k, j, 4) && Progress(A, B, trace, 4, limit, i, j, k + 1)
    {
      RowOfTile(trace, 4, limit, i, j, k);
      Move4(k, j);
    }

    // Two runs of 8 per row in a 16 by 16 tile.
    method MoveRow16(k: int, j: int, ghost limit: int, ghost i: int)
      requires Shapes() && 0 <= k < N && 0 <= j <= j + 16 <= limit <= M && 0 <= i <= k < i + 16
      requires Progress(A, B, trace, 16, limit, i, j, k)
      modifies `trace, B
      ensures Progress(A, B, trace, 16, limit, i, j, k + 1)
    {
      HalfRows(trace, limit, i, j, k);
      Move8(k, j);
      Move8(k, j + 8);
    }

    // The innermost loop: the rows of A within one tile.
    method MoveTile8(i: int, j: int, ghost limit: int)
      requires Shapes() && 0 <= i <= i + 8 <= N && 0 <= j <= j + 8 <= limit <= M
      requires Progress(A, B, trace, 8, limit, i, j, i)
      requires i % 8 == 0 && j % 8 == 0 && j <= 24 && InOrder(trace, 4 * i + j)
      modifies `trace, B
      ensures Progress(A, B, trace, 8, limit, i, j + 8, i) && InOrder(trace, 4 * i + j + 8)
    {
      var k := i;
      while k < i + 8
        invariant i <= k <= i + 8
        invariant Progress(A, B, trace, 8, limit, i, j, k)
        invariant InOrder(trace, 4 * i + j + (k - i))
      {
        NextRun(trace, i, j, k);
        MoveRow8(k, j, limit, i);
        k := k + 1;
      }
      NextTile(A, B, trace, 8, limit, i, j);
    }

    method MoveTile4(i: int, j: int, ghost limit: int)
      requires Shapes() && 0 <= i <= i + 4 <= N && 0 <= j <= j + 4 <= limit <= M
      requires Progress(A, B, trace, 4, limit, i, j, i)
      modifies `trace, B
      ensures Progress(A, B, trace, 4, limit, i, j + 4, i)
    {
      var k := i;
      while k < i + 4
        invariant i <= k <= i + 4
        invariant Progress(A, B, trace, 4, limit, i, j, k)
      {
        MoveRow4(k, j, limit, i);
        k := k + 1;
      }
      NextTile(A, B, trace, 4, limit, i, j);
    }

    method MoveTile16(i: int, j: int, ghost limit: int)
      requires Shapes() && 0 <= i <= i + 16 <= N && 0 <= j <= j + 16 <= limit <= M
      requires Progress(A, B, trace, 16, limit, i, j, i)
      modifies `trace, B
      ensures Progress(A, B, trace, 16, limit, i, j + 16, i)
    {
      var k := i;
      while k < i + 16
        invariant i <= k <= i + 16
        invariant Progress(A, B, trace, 16, limit, i, j, k)
      {
        MoveRow16(k, j, limit, i);
        k := k + 1;
      }
      NextTile(A, B, trace, 16, limit, i, j);
    }

    method Transpose32()
      requires Shapes() && M == N == 32 && trace == []
      modifies `trace, B
      ensures Transposed(A, B) && TouchesEachOnce(trace, M, N)
      ensures InOrder(trace, 128)
    {
      var i := 0;
      while i < M
        invariant 0 <= i <= 32 && i % 8 == 0
        invariant Progress(A, B, trace, 8, M, i, 0, i)
        invariant InOrder(trace, 4 * i)
      {
        var j := 0;
        while j < N
          invariant 0 <= j <= 32 && j % 8 == 0
          invariant Progress(A, B, trace, 8, M, i, j, i)
          invariant InOrder(trace, 4 * i + j)
        {
          MoveTile8(i, j, M);
          j := j + 8;
        }
        NextTileRow(A, B, trace, 8, M, i);
        i := i + 8;
      }
    }

    method Transpose64()
      requires Shapes() && M == N == 64 && trace == []
      modifies `trace, B
      ensures Transposed(A, B) && TouchesEachOnce(trace, M, N)
    {
      var i := 0;
      while i < M
        invariant 0 <= i <= 64 && i % 4 == 0
        invariant Progress(A, B, trace, 4, M, i, 0, i)
      {
        var j := 0;
        while j < N
          invariant 0 <= j <= 64 && j % 4 == 0
          invariant Progress(A, B, trace, 4, M, i, j, i)
        {
          MoveTile4(i, j, M);
          j := j + 4;
        }
        NextTileRow(A, B, trace, 4, M, i);
        i := i + 4;
      }
    }

    method LastRows(i: int, ghost limit: int)
      requires Shapes() && 0 <= i <= N && 0 <= limit <= M
      requires Progress(A, B, trace, 16, limit, i, 0, i)
      modifies `trace, B
      ensures LastRowsProgress(A, B, trace, limit, i, N, 0)
    {
      assert forall r, c :: TileDone(16, limit, i, 0, i, r, c) == LastRowsDone(M, limit, i, i, 0, r, c);
      var k := i;
      while k < N
        invariant i <= k <= N
        invariant LastRowsProgress(A, B, trace, limit, i, k, 0)
      {
        var l := 0;
        while l < M
          invariant 0 <= l <= M
          invariant LastRowsProgress(A, B, trace, limit, i, k, l)
        {
          RecordLastRow(trace, M, limit, i, k, l);
          MoveCell(k, l);
          l := l + 1;
        }
        NextLastRow(A, B, trace, limit, i, k);
        k := k + 1;
      }
    }

    // j has a value only when some tile row ran, and then it is the tile limit.
    method LastColumns(i: int, j: int, ghost limit: int)
      requires Shapes() && 0 <= i <= N && 0 <= limit <= M && (i > 0 ==> j == limit)
      requires LastRowsProgress(A, B, trace, limit, i, N, 0)
      modifies `trace, B
      ensures Transposed(A, B) && TouchesEachOnce(trace, M, N)
    {
      assert forall r, c :: LastRowsDone(M, limit, i, N, 0, r, c) == LastColumnsDone(M, N, limit, i, 0, limit, r, c);
      var k := 0;
      while k < i
        invariant 0 <= k <= i
        invariant LastColumnsProgress(A, B, trace, limit, i, k, limit)
      {
        var l := j;
        while l < M
          invariant limit <= l <= M
          invariant LastColumnsProgress(A, B, trace, limit, i, k, l)
        {
          RecordLastColumn(trace, M, N, limit, i, k, l);
          MoveCell(k, l);
          l := l + 1;
        }
        NextColumn(A, B, trace, limit, i, k);
        k := k + 1;
      }
      assert forall r, c :: LastColumnsDone(M, N, limit, i, i, limit, r, c) <==> 0 <= r < M && 0 <= c < N;
    }

    // The 61 by 67 nest, for every shape: whole tiles, then the last rows of A, then its last columns.
    method TransposeTiled()
      requires Shapes() && trace == []
      modifies `trace, B
      ensures Transposed(A, B) && TouchesEachOnce(trace, M, N)
    {
      ghost var limit := TileLimit(M);
      var i := 0;
      var j: int := *;
      while i + 16 < N
        invariant 0 <= i && i % 16 == 0 && (i < N || N == 0 == i)
        invariant i > 0 ==> j == limit
        invariant Progress(A, B, trace, 16, limit, i, 0, i)
      {
        j := 0;
        while j + 16 < M
          invariant 0 <= j <= limit && j % 16 == 0
          invariant Progress(A, B, trace, 16, limit, i, j, i)
        {
          MoveTile16(i, j, limit);
          j := j + 16;
        }
        assert j == limit;
        NextTileRow(A, B, trace, 16, limit, i);
        i := i + 16;
      }
      LastRows(i, limit);
      LastColumns(i, j, limit);
    }

    // transpose_submit
    method Submit()
      requires Shapes() && trace == []
      modifies `trace, B
      ensures (M == 32 && N == 32) || (M == 64 && N == 64) || (M == 61 && N == 67) ==>
        Transposed(A, B) && TouchesEachOnce(trace, M, N)
      ensures M == 32 && N == 32 ==> InOrder(trace, 128)
      ensures !(M == 32 && N == 32) && !(M == 64 && N == 64) && !(M == 61 && N == 67) ==>
        trace == [] && forall r, c :: 0 <= r < M && 0 <= c < N ==> B[r, c] == old(B[r, c])
    {
      if M == 32 && N == 32 {
        Transpose32();
      }
      if M == 64 && N == 64 {
        Transpose64();
      }
      if M == 61 && N == 67 {
        TransposeTiled();
      }
    }

    // trans, the simple row-wise version.
    method Trans()
      requires Shapes() && trace == []
      modifies `trace, B
      ensures Transposed(A, B) && TouchesEachOnce(trace, M, N)
    {
      var i := 0;
      while i < N
        invariant 0 <= i <= N
        invariant LastRowsProgress(A, B, trace, 0, 0, i, 0)
      {
        var j := 0;
        while j < M
          invariant 0 <= j <= M
          invariant LastRowsProgress(A, B, trace, 0, 0, i, j)
        {
          RecordLastRow(trace, M, 0, 0, i, j);
          MoveCell(i, j);
          j := j + 1;
        }
        NextLastRow(A, B, trace, 0, 0, i);
        i := i + 1;
      }
    }

    // is_transpose
    method IsTranspose() returns (yes: bool)
      requires Shapes()
      ensures yes <==> Transposed(A, B)
    {
      var i := 0;
      while i < N
        invariant 0 <= i <= N
        invariant forall r, c :: 0 <= r < M && 0 <= c < i ==> B[r, c] == A[c, r]
      {
        var j := 0;
        while j < M
          invariant 0 <= j <= M
          invariant forall r, c :: 0 <= r < M && 0 <= c < N && (c < i || (c == i && r < j)) ==> B[r, c] == A[c, r]
        {
          if A[i, j] != B[j, i] {
            return false;
          }
          j := j + 1;
        }
        i := i + 1;
      }
      return true;
    }
  }

  // For the three handled shapes the submitted version passes the check and agrees with the simple one.
  method Compare(M: nat, N: nat, A: array2<int>, B: array2<int>, C: array2<int>) returns (yes: bool)
    requires A.Length0 == B.Length1 == C.Length1 == N && A.Length1 == B.Length0 == C.Length0 == M
    requires A != B && A != C && B != C
    requires (M == 32 && N == 32) || (M == 64 && N == 64) || (M == 61 && N == 67)
    modifies B, C
    ensures yes && forall r, c :: 0 <= r < M && 0 <= c < N ==> B[r, c] == C[r, c]
  {
    var submitted := new Matrices(M, N, A, B);
    var simple := new Matrices(M, N, A, C);
    submitted.Submit();
    simple.Trans();
    yes := submitted.IsTranspose();
  }
}
