// The trace-driven cache simulator: `process`, `init_cache` and the operation dispatch.
module CacheSim {
  import opened Common
  import opened LruStack

  datatype CacheLine = CacheLine(valid: bool, tag: int, times: int)

  // s set-index bits, E lines per set, b block-offset bits.
  datatype Geometry = Geometry(s: nat, E: nat, b: nat) {
    // s = 0 would shift by 64, and 1 << s and address >> b must be defined shifts of an int.
    predicate Ok() { 1 <= s <= 30 && 1 <= E && b <= 31 }
  }

  // The global state of the program: all lines and the three counters.
  datatype Sim = Sim(sets: seq<seq<CacheLine>>, hits: int, misses: int, evictions: int) {
    predicate Shape(g: Geometry) {
      |sets| == PowerOfTwo(g.s) && forall k :: 0 <= k < |sets| ==> |sets[k]| == g.E
    }
  }

  function PowerOfTwo(n: nat): (p: nat)
    ensures p >= 1
  {
    if n == 0 then 1 else 2 * PowerOfTwo(n - 1)
  }

  // The powers of two: one shift by m + n is a shift by m and a shift by n, and a shift by 1 doubles.
  lemma {:induction false} PowersMultiply(m: nat, n: nat)
    ensures PowerOfTwo(m + n) == PowerOfTwo(m) * PowerOfTwo(n) && PowerOfTwo(1) == 2
  {
    if m > 0 {
      PowersMultiply(m - 1, n);
    }
  }

  // Arithmetic shifts right are floor divisions, the mask keeps the low s bits.
  function SetIndex(g: Geometry, address: int): (k: nat)
    ensures k < PowerOfTwo(g.s)
  {
    (address / PowerOfTwo(g.b)) % PowerOfTwo(g.s)
  }

  function TagBits(g: Geometry, address: int): int {
    (address / PowerOfTwo(g.b)) / PowerOfTwo(g.s)
  }

  // Set and tag are the digits of an address: it lies in the block number 2^s * tag + set of 2^b bytes,
  // and no other set and tag have that block.
  lemma AddressInParts(g: Geometry, address: int, tag: int, k: nat)
    requires k < PowerOfTwo(g.s)
    ensures k == SetIndex(g, address) && tag == TagBits(g, address) <==>
              var block := PowerOfTwo(g.s) * tag + k;
              PowerOfTwo(g.b) * block <= address < PowerOfTwo(g.b) * block + PowerOfTwo(g.b)
  {
    var sets, bytes := PowerOfTwo(g.s), PowerOfTwo(g.b);
    DivisionIs(address, bytes, sets * tag + k);
    var block := address / bytes;
    DivisionIs(block, sets, tag);
    assert block == sets * (block / sets) + block % sets;
  }

  lemma DivisionIs(n: int, d: int, q: int)
    requires d >= 1
    ensures q == n / d <==> d * q <= n < d * q + d
  {
    var gap := q - n / d;
    assert n == d * (n / d) + n % d;
    assert d * gap == d * q - d * (n / d);
    Multiple(d, gap);
  }

  lemma {:induction false} Multiple(d: int, x: int)
    requires d >= 1
    ensures x >= 1 ==> d * x >= d
    ensures x <= -1 ==> d * x <= -d
    decreases if x < 0 then -x else x
  {
    if x > 1 {
      Multiple(d, x - 1);
      assert d * x == d * (x - 1) + d;
    } else if x < -1 {
      Multiple(d, x + 1);
      assert d * x == d * (x + 1) - d;
    }
  }

  // A bit moved from the set index to the offset: half as many sets of blocks twice as long.
  lemma BitMoved(g: Geometry, address: int)
    requires g.s > 0
    ensures TagBits(Geometry(g.s - 1, g.E, g.b + 1), address) == TagBits(g, address)
    ensures SetIndex(Geometry(g.s - 1, g.E, g.b + 1), address) == SetIndex(g, address) / 2
  {
    var h := Geometry(g.s - 1, g.E, g.b + 1);
    var tag, k := TagBits(g, address), SetIndex(g, address);
    var half, bytes := PowerOfTwo(g.s - 1), PowerOfTwo(g.b);
    AddressInParts(g, address, tag, k);
    PowersMultiply(1, g.s - 1);
    PowersMultiply(1, g.b);
    HalfBlocks(address, bytes, half, tag, k);
    AddressInParts(h, address, tag, k / 2);
  }

  lemma HalfBlocks(address: int, bytes: nat, half: nat, tag: int, k: nat)
    requires bytes * (2 * half * tag + k) <= address < bytes * (2 * half * tag + k) + bytes
    ensures 2 * bytes * (half * tag + k / 2) <= address < 2 * bytes * (half * tag + k / 2) + 2 * bytes
  {
    var block := half * tag + k / 2;
    assert 2 * half * tag + k == 2 * block + k % 2;
    assert bytes * (2 * block + k % 2) == 2 * bytes * block + bytes * (k % 2);
    if k % 2 == 0 {
      assert bytes * (k % 2) == 0;
    } else {
      assert bytes * (k % 2) == bytes;
    }
  }

  // Two addresses share set and tag exactly when they lie in the same block of 2^b bytes.
  lemma SameLineIffSameBlock(g: Geometry, x: int, y: int)
    ensures SetIndex(g, x) == SetIndex(g, y) && TagBits(g, x) == TagBits(g, y) <==>
              x / PowerOfTwo(g.b) == y / PowerOfTwo(g.b)
  {
    var sets, p, q := PowerOfTwo(g.s), x / PowerOfTwo(g.b), y / PowerOfTwo(g.b);
    assert p == sets * (p / sets) + p % sets;
    assert q == sets * (q / sets) + q % sets;
  }

  // The conversion from long to int at the call of process changes an address by a multiple of 2^32, and not at all if it fits.
  lemma ToInt32IsCongruent(x: int) returns (k: int)
    ensures ToInt32(x) == x + 0x1_0000_0000 * k
    ensures -0x8000_0000 <= x < 0x8000_0000 <==> k == 0
  {
    k := -((x + 0x8000_0000) / 0x1_0000_0000);
  }

  function Aged(lines: seq<CacheLine>): seq<CacheLine> {
    seq(|lines|, i requires 0 <= i < |lines| =>
      if lines[i].valid then lines[i].(times := lines[i].times + 1) else lines[i])
  }

  predicate Matches(line: CacheLine, tag: int) { line.valid && line.tag == tag }

  // First line holding the tag, or the number of lines.
  function FindTag(lines: seq<CacheLine>, tag: int, start: nat := 0): (i: nat)
    requires start <= |lines|
    ensures start <= i <= |lines|
    ensures i < |lines| ==> Matches(lines[i], tag)
    ensures forall j :: start <= j < i ==> !Matches(lines[j], tag)
    decreases |lines| - start
  {
    if start == |lines| || Matches(lines[start], tag) then start else FindTag(lines, tag, start + 1)
  }

  // First line that is not in use, or the number of lines.
  function FindFree(lines: seq<CacheLine>, start: nat := 0): (i: nat)
    requires start <= |lines|
    ensures start <= i <= |lines|
    ensures i < |lines| ==> !lines[i].valid
    ensures forall j :: start <= j < i ==> lines[j].valid
    decreases |lines| - start
  {
    if start == |lines| || !lines[start].valid then start else FindFree(lines, start + 1)
  }

  // p is the first line of largest age among the first n.
  predicate IsOldest(lines: seq<CacheLine>, n: nat, p: nat)
    requires n <= |lines|
  {
    && p < n
    && (forall j :: 0 <= j < n ==> lines[j].times <= lines[p].times)
    && (forall j :: 0 <= j < p ==> lines[j].times < lines[p].times)
  }

  function Oldest(lines: seq<CacheLine>, n: nat): (p: nat)
    requires 1 <= n <= |lines|
    ensures IsOldest(lines, n, p)
  {
    if n == 1 then 0
    else
      var p := Oldest(lines, n - 1);
      if lines[n - 1].times > lines[p].times then n - 1 else p
  }

  // What one access does to the lines of its set: all age, and then the tag gets its place.
  function ProcessLines(lines: seq<CacheLine>, tag: int): (seq<CacheLine>, Outcome)
    requires |lines| >= 1
  {
    Place(Aged(lines), tag)
  }

  function Place(aged: seq<CacheLine>, tag: int): (seq<CacheLine>, Outcome)
    requires |aged| >= 1
  {
    var hit := FindTag(aged, tag);
    if hit < |aged| then (aged[hit := aged[hit].(times := 0)], Hit)
    else
      var free := FindFree(aged);
      if free < |aged| then (aged[free := CacheLine(true, tag, 0)], Miss)
      else
        var victim := Oldest(aged, |aged|);
        (aged[victim := aged[victim].(tag := tag, times := 0)], MissEvict)
  }

  function Count(st: Sim, o: Outcome): Sim {
    match o
    case Hit => st.(hits := st.hits + 1)
    case Miss => st.(misses := st.misses + 1)
    case MissEvict => st.(misses := st.misses + 1, evictions := st.evictions + 1)
  }

  function Access(st: Sim, g: Geometry, address: int): (r: Sim)
    requires g.Ok() && st.Shape(g)
    ensures r.Shape(g)
  {
    var k := SetIndex(g, address);
    var (lines, outcome) := ProcessLines(st.sets[k], TagBits(g, address));
    Count(st, outcome).(sets := st.sets[k := lines])
  }

  // A whole list of calls of process, the last one applied last.
  function RunFrom(st: Sim, g: Geometry, addresses: seq<int>): (r: Sim)
    requires g.Ok() && st.Shape(g)
    ensures r.Shape(g)
  {
    if addresses == [] then st
    else Access(RunFrom(st, g, addresses[..|addresses| - 1]), g, addresses[|addresses| - 1])
  }

  const Unused := CacheLine(false, -1, 0)

  function InitialSim(g: Geometry): (r: Sim)
    ensures r.Shape(g)
  {
    Sim(seq(PowerOfTwo(g.s), _ => seq(g.E, _ => Unused)), 0, 0, 0)
  }

  function Run(g: Geometry, addresses: seq<int>): Sim
    requires g.Ok()
  {
    RunFrom(InitialSim(g), g, addresses)
  }

  datatype Operation = Operation(op: char, address: int, size: int)

  predicate KnownOp(c: char) { c == 'I' || c == 'M' || c == 'L' || c == 'S' }

  // How often an operation occurs in a trace.
  function Occurrences(ops: seq<Operation>, c: char): nat {
    if ops == [] then 0 else Occurrences(ops[..|ops| - 1], c) + if ops[|ops| - 1].op == c then 1 else 0
  }

  // The addresses an operation passes to process, each a long converted to int.
  function ProbesOf(o: Operation): seq<int> {
    var a := ToInt32(o.address);
    if o.op == 'M' then [a, a] else if o.op == 'I' then [] else [a]
  }

  function Probes(ops: seq<Operation>): seq<int> {
    if ops == [] then [] else Probes(ops[..|ops| - 1]) + ProbesOf(ops[|ops| - 1])
  }

  // A trace of known operations costs one access for each L and S and two for each M, all of them at
  // addresses of its operations.
  lemma {:induction false} ProbesOfTrace(ops: seq<Operation>)
    requires forall i :: 0 <= i < |ops| ==> ops[i].op in "IMLS"
    ensures |Probes(ops)| == Occurrences(ops, 'L') + Occurrences(ops, 'S') + 2 * Occurrences(ops, 'M')
    ensures forall p :: p in Probes(ops) ==> exists i :: 0 <= i < |ops| && p == ToInt32(ops[i].address)
  {
    if ops != [] {
      var n := |ops| - 1;
      ProbesOfTrace(ops[..n]);
      forall p | p in Probes(ops) ensures exists i :: 0 <= i < |ops| && p == ToInt32(ops[i].address) {
        if p in Probes(ops[..n]) {
          var i :| 0 <= i < n && p == ToInt32(ops[..n][i].address);
          assert ops[..n][i] == ops[i];
        } else {
          assert p in ProbesOf(ops[n]) && p == ToInt32(ops[n].address);
        }
      }
    }
  }

  function Perform(st: Sim, g: Geometry, o: Operation): (r: Sim)
    requires g.Ok() && st.Shape(g)
    ensures r.Shape(g)
  {
    if o.op == 'I' then st
    else
      var once := Access(st, g, ToInt32(o.address));
      if o.op == 'M' then Access(once, g, ToInt32(o.address)) else once
  }

  // main's loop over a trace of known operations.
  function RunOperations(st: Sim, g: Geometry, ops: seq<Operation>): (r: Sim)
    requires g.Ok() && st.Shape(g)
    ensures r.Shape(g)
  {
    if ops == [] then st
    else Perform(RunOperations(st, g, ops[..|ops| - 1]), g, ops[|ops| - 1])
  }

  // M costs two accesses, L and S one, I none.
  lemma {:induction false} PerformIsProbes(st: Sim, g: Geometry, probes: seq<int>, o: Operation)
    requires g.Ok() && st.Shape(g)
    ensures Perform(RunFrom(st, g, probes), g, o) == RunFrom(st, g, probes + ProbesOf(o))
  {
    var a := ToInt32(o.address);
    RunFromOneMore(st, g, probes, a);
    if o.op == 'I' {
      assert probes + [] == probes;
    } else if o.op == 'M' {
      RunFromOneMore(st, g, probes + [a], a);
      assert probes + [a, a] == probes + [a] + [a];
    }
  }

  lemma {:induction false} OperationsAreProbes(st: Sim, g: Geometry, ops: seq<Operation>)
    requires g.Ok() && st.Shape(g)
    ensures RunOperations(st, g, ops) == RunFrom(st, g, Probes(ops))
  {
    if ops != [] {
      var front := ops[..|ops| - 1];
      OperationsAreProbes(st, g, front);
      PerformIsProbes(st, g, Probes(front), ops[|ops| - 1]);
    }
  }

  lemma RunFromOneMore(st: Sim, g: Geometry, addresses: seq<int>, x: int)
    requires g.Ok() && st.Shape(g)
    ensures RunFrom(st, g, addresses + [x]) == Access(RunFrom(st, g, addresses), g, x)
  {
    assert (addresses + [x])[..|addresses|] == addresses;
  }

  lemma {:induction false} RunFromConcat(st: Sim, g: Geometry, xs: seq<int>, ys: seq<int>)
    requires g.Ok() && st.Shape(g)
    ensures RunFrom(st, g, xs + ys) == RunFrom(RunFrom(st, g, xs), g, ys)
  {
    if ys == [] {
      assert xs + ys == xs;
    } else {
      var front, last := ys[..|ys| - 1], ys[|ys| - 1];
      RunFromConcat(st, g, xs, front);
      assert xs + ys == xs + front + [last];
      RunFromOneMore(st, g, xs + front, last);
    }
  }

  // The program's own form: an outer array of pointers to sets, each set an array of lines.
  class CacheSimulator {
    const g: Geometry
    const sets: seq<array<CacheLine>>
    var hitCount: int
    var missCount: int
    var evictionCount: int

    ghost predicate Valid() {
      && g.Ok()
      && |sets| == PowerOfTwo(g.s)
      && (forall k :: 0 <= k < |sets| ==> sets[k].Length == g.E)
      && (forall k, m :: 0 <= k < m < |sets| ==> sets[k] != sets[m])
    }

    ghost function State(): (st: Sim)
      requires Valid()
      reads this, sets
      ensures st.Shape(g)
    {
      Sim(seq(|sets|, k requires 0 <= k < |sets| reads sets => sets[k][..]), hitCount, missCount, evictionCount)
    }

    constructor (g: Geometry)
      requires g.Ok()
      ensures Valid() && this.g == g && State() == InitialSim(g)
      ensures fresh(sets)
    {
      var rows: seq<array<CacheLine>> := [];
      var i := 0;
      while i < PowerOfTwo(g.s)
        invariant i == |rows| <= PowerOfTwo(g.s)
        invariant forall k :: 0 <= k < i ==> fresh(rows[k]) && rows[k].Length == g.E
        invariant forall k :: 0 <= k < i ==> forall j :: 0 <= j < g.E ==> rows[k][j] == Unused
        invariant forall k, m :: 0 <= k < m < i ==> rows[k] != rows[m]
      {
        var row := new CacheLine[g.E];
        var j := 0;
        while j < g.E
          invariant 0 <= j <= g.E
          invariant forall p :: 0 <= p < j ==> row[p] == Unused
          invariant forall k :: 0 <= k < i ==> forall p :: 0 <= p < g.E ==> rows[k][p] == Unused
        {
          row[j] := Unused;
          j := j + 1;
        }
        rows := rows + [row];
        i := i + 1;
      }
      this.g := g;
      this.sets := rows;
      hitCount, missCount, evictionCount := 0, 0, 0;
      new;
      assert State().sets == InitialSim(g).sets by {
        forall k | 0 <= k < |rows| ensures rows[k][..] == seq(g.E, _ => Unused) { }
      }
    }

    // The loops of process over the lines of the selected set.
    method ProcessSet(lines: array<CacheLine>, tag: int) returns (outcome: Outcome)
      requires Valid() && lines in sets
      modifies lines
      ensures (lines[..], outcome) == ProcessLines(old(lines[..]), tag)
    {
      ghost var before := lines[..];
      ghost var aged := Aged(before);
      var i := 0;
      while i < g.E
        invariant 0 <= i <= g.E
        invariant lines[..i] == aged[..i]
        invariant lines[i..] == before[i..]
      {
        assert lines[i] == lines[i..][0] == before[i];
        if lines[i].valid {
          lines[i] := lines[i].(times := lines[i].times + 1);
        }
        i := i + 1;
      }
      assert lines[..] == aged;

      i := 0;
      while i < g.E
        invariant 0 <= i <= g.E
        invariant forall j :: 0 <= j < i ==> !Matches(aged[j], tag)
        invariant lines[..] == aged
      {
        if Matches(lines[i], tag) {
          lines[i] := lines[i].(times := 0);
          assert lines[..] == aged[i := aged[i].(times := 0)];
          return Hit;
        }
        i := i + 1;
      }

      i := 0;
      while i < g.E
        invariant 0 <= i <= g.E
        invariant forall j :: 0 <= j < i ==> aged[j].valid
        invariant lines[..] == aged
      {
        if !lines[i].valid {
          lines[i] := CacheLine(true, tag, 0);
          assert lines[..] == aged[i := CacheLine(true, tag, 0)];
          return Miss;
        }
        i := i + 1;
      }

      var maxIndex, maxTime := 0, lines[0].times;
      i := 0;
      while i < g.E
        invariant 0 <= i <= g.E
        invariant maxIndex < g.E && maxTime == aged[maxIndex].times
        invariant if i == 0 then maxIndex == 0 else IsOldest(aged, i, maxIndex)
        invariant lines[..] == aged
      {
        if lines[i].times > maxTime {
          maxIndex, maxTime := i, lines[i].times;
        }
        i := i + 1;
      }
      lines[maxIndex] := lines[maxIndex].(tag := tag, times := 0);
      assert lines[..] == aged[maxIndex := aged[maxIndex].(tag := tag, times := 0)];
      return MissEvict;
    }

    method Process(address: int)
      requires Valid()
      modifies this, sets
      ensures State() == Access(old(State()), g, address)
    {
      var k := SetIndex(g, address);
      var outcome := ProcessSet(sets[k], TagBits(g, address));
      match outcome {
        case Hit => hitCount := hitCount + 1;
        case Miss => missCount := missCount + 1;
        case MissEvict =>
          missCount := missCount + 1;
          evictionCount := evictionCount + 1;
      }
      assert State().sets == old(State()).sets[k := sets[k][..]];
    }

    // The switch of main on a known operation.
    method PerformOperation(o: Operation)
      requires Valid() && KnownOp(o.op)
      modifies this, sets
      ensures State() == Perform(old(State()), g, o)
    {
      if o.op == 'M' {
        Process(ToInt32(o.address));
        Process(ToInt32(o.address));
      } else if o.op != 'I' {
        Process(ToInt32(o.address));
      }
    }

    // The loop of main over the trace. An unknown operation ends the program without a summary.
    method Simulate(operations: seq<Operation>) returns (summary: bool)
      requires Valid()
      modifies this, sets
      ensures summary <==> forall i :: 0 <= i < |operations| ==> operations[i].op in "IMLS"
      ensures summary ==> State() == RunOperations(old(State()), g, operations)
    {
      ghost var start := State();
      for i := 0 to |operations|
        invariant forall j :: 0 <= j < i ==> KnownOp(operations[j].op)
        invariant State() == RunOperations(start, g, operations[..i])
      {
        if !KnownOp(operations[i].op) {
          return false;
        }
        assert operations[..i + 1][..i] == operations[..i];
        PerformOperation(operations[i]);
      }
      assert operations[..|operations|] == operations;
      return true;
    }
  }
}
