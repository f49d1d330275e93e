/** The chunks in which a dataset is stored: a power of two in each dimension, 4096 elements at most. */
module ChunkSize {
  import opened Subscripts

  function Pow2(e: nat): (p: nat)
    ensures p >= 1
  {
    if e == 0 then 1 else 2 * Pow2(e - 1)
  }

  lemma {:induction false} Pow2Sum(a: nat, b: nat)
    ensures Pow2(a + b) == Pow2(a) * Pow2(b)
  {
    if a > 0 {
      Pow2Sum(a - 1, b);
      Twice(Pow2(a - 1), Pow2(b));
    }
  }

  lemma Twice(x: int, y: int)
    ensures (2 * x) * y == 2 * (x * y)
  {
  }

  lemma {:induction false} Pow2Ordered(a: nat, b: nat)
    requires a < b
    ensures Pow2(a) < Pow2(b)
  {
    if a + 1 < b {
      Pow2Ordered(a, b - 1);
    }
  }

  ghost predicate IsPow2(n: int) {
    exists e: nat :: n == Pow2(e)
  }

  /** `p` is the largest power of two that neither the dimension nor the budget is less than, and 1 if
      there is none. */
  ghost predicate Largest(p: nat, dim: nat, budget: nat) {
    && IsPow2(p) && p <= budget
    && (p == 1 || p <= dim)
    && forall q | IsPow2(q) && q <= dim && q <= budget :: q <= p
  }

  /** The inner loop: from the budget down by halves. */
  method LargestChunk(dim: nat, ghost e: nat, budget: nat) returns (p: nat, ghost k: nat)
    requires budget == Pow2(e)
    ensures k <= e && p == Pow2(k) && Largest(p, dim, budget)
  {
    hide Pow2;
    k := e;
    var j := budget;
    assert forall q | IsPow2(q) && q <= dim && q <= budget :: q <= j;
    while j > 1
      invariant k <= e && j == Pow2(k) && j <= budget
      invariant forall q | IsPow2(q) && q <= dim && q <= budget :: q <= j
      decreases j
    {
      if dim >= j {
        assert Largest(j, dim, budget);
        return j, k;
      }
      Halve(k, j);
      forall q | IsPow2(q) && q <= dim && q <= budget
        ensures q <= j / 2
      {
        Below(q, k);
      }
      k := k - 1;
      j := j / 2;
    }
    One();
    PositivePow2(k);
    p, k := 1, 0;
    assert IsPow2(1);
  }

  lemma One()
    ensures Pow2(0) == 1
  {
  }

  lemma PositivePow2(k: nat)
    ensures 1 <= Pow2(k)
  {
  }

  lemma Halve(k: nat, j: nat)
    requires j == Pow2(k) && j > 1
    ensures k > 0 && j / 2 == Pow2(k - 1)
  {
  }

  lemma Below(q: nat, k: nat)
    requires IsPow2(q) && q < Pow2(k) && k > 0
    ensures q <= Pow2(k - 1)
  {
    var e: nat :| q == Pow2(e);
    if e >= k {
      if e > k {
        Pow2Ordered(k, e);
      }
      assert false;
    }
    if e < k - 1 {
      Pow2Ordered(e, k - 1);
    }
  }

  /** What is left of 4096 elements when this many are taken. */
  function Room(n: nat): nat
    requires 0 < n
  {
    4096 / n
  }

  predicate Divides(n: nat) {
    0 < n && 4096 % n == 0
  }

  lemma Budget(used: nat)
    requires used <= 12
    ensures Divides(Pow2(used)) && Room(Pow2(used)) == Pow2(12 - used)
  {
    Pow2Sum(used, 12 - used);
    assert Pow2(12) == 4096;
    DivideExactly(Pow2(used), Pow2(12 - used));
  }

  lemma DivideExactly(x: nat, y: nat)
    requires 0 < x
    ensures x * y / x == y && x * y % x == 0
  {
    var q, r := x * y / x, x * y % x;
    SameDigit(x, 0, y, r, q);
  }

  /** Dimension `i` has the largest chunk that the chunks before it leave room for. */
  ghost predicate Good(chunks: seq<nat>, dims: seq<nat>, i: nat)
    requires i < |chunks| <= |dims|
  {
    var before := Prod(chunks[..i]);
    Divides(before) && Largest(chunks[i], dims[i], Room(before))
  }

  /** Mat_H5GetChunkSize. */
  method GetChunkSize(dims: seq<nat>, chunkDims: array<nat>)
    requires |dims| <= chunkDims.Length
    modifies chunkDims
    ensures forall i | 0 <= i < |dims| :: Good(chunkDims[..|dims|], dims, i)
    ensures Divides(Prod(chunkDims[..|dims|]))
    ensures chunkDims[|dims|..] == old(chunkDims[|dims|..])
  {
    hide Pow2, Largest, Prod, Room, Divides, Good;
    var chunkSize := 1;
    ghost var used := 0;
    One();
    var i := 0;
    assert chunkDims[..0] == [];
    NoDims();
    while i < |dims|
      invariant 0 <= i <= |dims| && used <= 12
      invariant chunkSize == Pow2(used) == Prod(chunkDims[..i])
      invariant forall k | 0 <= k < i :: Good(chunkDims[..i], dims, k)
      invariant chunkDims[|dims|..] == old(chunkDims[|dims|..])
    {
      ghost var done := chunkDims[..i];
      chunkDims[i] := 1;
      Budget(used);
      var p, k := LargestChunk(dims[i], 12 - used, Room(chunkSize));
      chunkDims[i] := p;
      assert chunkDims[..i + 1] == done + [p];
      OneMoreChunk(done, dims, p, used, k);
      used := used + k;
      chunkSize := chunkSize * p;
      i := i + 1;
    }
    Budget(used);
  }

  lemma NoDims()
    ensures Prod([]) == 1
  {
  }

  lemma OneMoreChunk(done: seq<nat>, dims: seq<nat>, p: nat, used: nat, k: nat)
    requires |done| < |dims| && forall i | 0 <= i < |done| :: Good(done, dims, i)
    requires Prod(done) == Pow2(used) && used <= 12 && k <= 12 - used && p == Pow2(k)
    requires Divides(Prod(done)) && Largest(p, dims[|done|], Room(Prod(done)))
    ensures Prod(done + [p]) == Prod(done) * p == Pow2(used + k)
    ensures forall i | 0 <= i <= |done| :: Good(done + [p], dims, i)
  {
    hide Largest, Room, Divides;
    var more := done + [p];
    assert more[..|done|] == done;
    Pow2Sum(used, k);
    forall i | 0 <= i <= |done|
      ensures Good(more, dims, i)
    {
      assert more[..i] == done[..i];
      if i < |done| {
        assert Good(done, dims, i);
      } else {
        assert done[..i] == done;
      }
    }
  }
}
