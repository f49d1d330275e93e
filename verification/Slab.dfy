/** Taking a slab out of an N-dimensional array: the walk of an index over the columns of the request,
    and a pointer that goes along with it. */
module Slab {
  import opened Common
  import opened Subscripts
  import opened CellIndex

  // ----- What the walk computes before it starts -----

  /** dimp[i]: the source multiplies dims[i - 1] with the dims from 1 to i. */
  function Block(dims: seq<nat>, i: nat): nat
    requires i < |dims|
  {
    if i == 0 then dims[0] else dims[i - 1] * Prod(dims[1..i + 1])
  }

  /** The block sizes of all dimensions. */
  function Blocks(dims: seq<nat>): (r: seq<nat>)
    ensures |r| == |dims|
    ensures (forall k | 0 <= k < |dims| :: 0 < dims[k]) ==> forall k | 0 <= k < |dims| :: 0 < r[k]
  {
    BlocksPositive(dims);
    seq(|dims|, i requires 0 <= i < |dims| => Block(dims, i))
  }

  lemma BlockPositive(dims: seq<nat>, i: nat)
    requires i < |dims| && forall k | 0 <= k < |dims| :: 0 < dims[k]
    ensures 0 < Block(dims, i)
  {
    PositiveProd(dims[1..i + 1]);
    if i > 0 {
      PositiveTimes(dims[i - 1], Prod(dims[1..i + 1]));
    }
  }

  lemma BlocksPositive(dims: seq<nat>)
    ensures (forall k | 0 <= k < |dims| :: 0 < dims[k]) ==> forall k | 0 <= k < |dims| :: 0 < Block(dims, k)
  {
    hide Block;
    if forall k | 0 <= k < |dims| :: 0 < dims[k] {
      forall k | 0 <= k < |dims|
        ensures 0 < Block(dims, k)
      {
        BlockPositive(dims, k);
      }
    }
  }

  /** How far one step in each dimension is, less the step itself. */
  function Steps(dims: seq<nat>, stride: seq<int>): seq<int>
    requires |stride| == |dims|
  {
    seq(|dims|, i requires 0 <= i < |dims| => (stride[i] - 1) * Prod(dims[..i]))
  }

  /** The number of elements by which the start is away from the beginning, up to dimension `i`. */
  function Offset(dims: seq<nat>, start: seq<int>, i: nat): int
    requires 1 <= i <= |dims| == |start|
  {
    if i == 1 then 0 else Offset(dims, start, i - 1) + Block(dims, i - 2) * start[i - 1]
  }

  /** Requests the walk gets right at any rank, among them every one up to rank 3. */
  predicate Straight(dims: seq<nat>, start: seq<int>)
    requires |dims| == |start|
  {
    forall i | 1 <= i <= |dims| - 3 :: dims[i] == dims[0] && start[i] == 0
  }

  lemma {:induction false} ProdFront(dims: seq<nat>)
    requires 1 <= |dims|
    ensures Prod(dims) == dims[0] * Prod(dims[1..])
  {
    var n := |dims| - 1;
    if n == 0 {
      assert dims[..0] == dims[1..] == [];
    } else {
      ProdFront(dims[..n]);
      assert dims[..n][1..] == dims[1..][..n - 1];
      Associate(dims[0], Prod(dims[1..n]), dims[n]);
    }
  }

  lemma Associate(x: int, y: int, z: int)
    ensures x * y * z == x * (y * z)
  {
  }

  /** Where the block size is used, it is that of the dimension. */
  lemma BlockIs(dims: seq<nat>, start: seq<int>, i: nat)
    requires |dims| == |start| && i < |dims|
    requires i <= 1 || (i <= |dims| - 2 && Straight(dims, start))
    ensures Block(dims, i) == Prod(dims[..i + 1])
  {
    if i == 0 {
      OneColumn(dims);
    } else {
      ProdFront(dims[..i + 1]);
      assert dims[..i + 1][1..] == dims[1..i + 1];
    }
  }

  lemma {:induction false} OffsetIs(dims: seq<nat>, start: seq<int>, i: nat)
    requires 1 <= i <= |dims| == |start| && Straight(dims, start)
    ensures Offset(dims, start, i) == Linear(dims[..i], start[0 := 0][..i])
  {
    hide Block, Prod, Linear;
    var s := start[0 := 0];
    if i == 1 {
      FirstTerm(dims, s);
    } else {
      OffsetIs(dims, start, i - 1);
      LinearStep(dims, s, i - 1);
      BlockIs(dims, start, i - 2);
    }
  }

  method Setup(dims: seq<nat>, start: seq<int>, stride: seq<int>, edge: seq<nat>)
      returns (inc: seq<int>, dimp: seq<nat>, N: nat, I: int)
    requires 1 <= |dims| == |start| == |stride| == |edge| <= 10
    ensures inc == Steps(dims, stride) && dimp == Blocks(dims)
    ensures N == Prod(edge) && I == Offset(dims, start, |dims|)
  {
    hide Prod, Offset, Block;
    inc, dimp := seq(|dims|, _ => 0), seq(|dims|, _ => 0);
    inc := inc[0 := stride[0] - 1];
    dimp := dimp[0 := dims[0]];
    N := edge[0];
    I := 0;
    SetupFirst(dims, start, edge);
    var i := 1;
    while i < |dims|
      invariant 1 <= i <= |dims| && |inc| == |dimp| == |dims|
      invariant N == Prod(edge[..i]) && I == Offset(dims, start, i)
      invariant forall k | 0 <= k < i :: dimp[k] == Block(dims, k)
      invariant forall k | 0 <= k < i :: inc[k] == (stride[k] - 1) * Prod(dims[..k])
    {
      var a, b := Multiply(dims, i, stride[i] - 1, dims[i - 1]);
      inc := inc[i := a];
      dimp := dimp[i := b];
      SetupStep(dims, start, edge, i);
      N := N * edge[i];
      I := I + dimp[i - 1] * start[i];
      i := i + 1;
    }
    assert edge[..i] == edge;
  }

  lemma SetupFirst(dims: seq<nat>, start: seq<int>, edge: seq<nat>)
    requires 1 <= |dims| == |start| == |edge|
    ensures Prod(dims[..0]) == 1 && Prod(edge[..1]) == edge[0]
    ensures Offset(dims, start, 1) == 0 && Block(dims, 0) == dims[0]
  {
    OneColumn(edge);
    assert dims[..0] == [];
  }

  lemma SetupStep(dims: seq<nat>, start: seq<int>, edge: seq<nat>, i: nat)
    requires 1 <= i < |dims| == |start| == |edge|
    ensures Prod(edge[..i + 1]) == Prod(edge[..i]) * edge[i]
    ensures Offset(dims, start, i + 1) == Offset(dims, start, i) + Block(dims, i - 1) * start[i]
    ensures Block(dims, i) == dims[i - 1] * Prod(dims[1..i + 1])
  {
    ProdStep(edge, i);
  }

  /** The inner loop of the setup, which runs down over the dims before `i`. */
  method Multiply(dims: seq<nat>, i: nat, inc: int, dimp: nat) returns (inc': int, dimp': nat)
    requires i < |dims|
    ensures inc' == inc * Prod(dims[..i]) && dimp' == dimp * Prod(dims[1..i + 1])
  {
    hide Prod;
    inc', dimp' := inc, dimp;
    var j := i;
    while j > 0
      invariant 0 <= j <= i
      invariant inc' * Prod(dims[..j]) == inc * Prod(dims[..i])
      invariant dimp' * Prod(dims[1..j + 1]) == dimp * Prod(dims[1..i + 1])
    {
      j := j - 1;
      ProdStep(dims, j);
      ProdStep(dims[1..], j);
      assert dims[1..][..j + 1] == dims[1..j + 2] && dims[1..][..j] == dims[1..j + 1];
      Regroup(inc', Prod(dims[..j]), dims[j]);
      Regroup(dimp', Prod(dims[1..j + 1]), dims[j + 1]);
      NonNegative(dimp', dims[j + 1]);
      inc', dimp' := inc' * dims[j], dimp' * dims[j + 1];
    }
    EmptyProducts(dims);
  }

  lemma EmptyProducts(dims: seq<nat>)
    requires 1 <= |dims|
    ensures Prod(dims[..0]) == 1 && Prod(dims[1..1]) == 1
  {
    assert dims[..0] == [] && dims[1..1] == [];
  }

  // ----- From one column to the next -----

  /** The rank loop from dimension `j` on: the counters and the index after it. */
  function RankLoop(n: nat, start: seq<int>, edge: seq<nat>, dimp: seq<nat>, inc: seq<int>, cnt: seq<int>, I: int, j: nat): (r: (seq<int>, int))
    requires n <= |start| && n <= |edge| && n <= |dimp| && n <= |inc| && n <= |cnt| && 1 <= j
    requires forall k | 0 <= k < n :: 0 < edge[k] && 0 < dimp[k]
    ensures |r.0| == |cnt|
    decreases n - j
  {
    if j >= n then (cnt, I)
    else if (cnt[j] + 1) % edge[j] != 0 then (cnt[j := cnt[j] + 1], I + inc[j])
    else RankLoop(n, start, edge, dimp, inc, cnt[j := 0], UpTo(I, dimp[j]) + dimp[j - 1] * start[j], j + 1)
  }

  /** The next multiple of `d`, or `I` itself. */
  function UpTo(I: int, d: nat): int
    requires 0 < d
  {
    if I % d != 0 then I + d - I % d else I
  }

  /** The rank loop, with the pointer moving along. */
  method NextColumn(n: nat, start: seq<int>, edge: seq<nat>, dimp: seq<nat>, inc: seq<int>, cnt: seq<int>, I: int, ptr: int)
      returns (cnt': seq<int>, I': int, ptr': int)
    requires n <= |start| && n <= |edge| && n <= |dimp| && n <= |inc| && n <= |cnt|
    requires forall k | 0 <= k < n :: 0 < edge[k] && 0 < dimp[k]
    ensures (cnt', I') == RankLoop(n, start, edge, dimp, inc, cnt, I, 1)
    ensures ptr' - ptr == I' - I
  {
    cnt', I', ptr' := cnt, I, ptr;
    var j := 1;
    while j < n
      invariant 1 <= j && |cnt'| == |cnt|
      invariant RankLoop(n, start, edge, dimp, inc, cnt', I', j) == RankLoop(n, start, edge, dimp, inc, cnt, I, 1)
      invariant ptr' - ptr == I' - I
    {
      var upward := cnt'[j] + 1;
      if upward % edge[j] == 0 {
        cnt' := cnt'[j := 0];
        if I' % dimp[j] != 0 {
          ptr' := ptr' + (dimp[j] - I' % dimp[j] + dimp[j - 1] * start[j]);
          I' := I' + (dimp[j] - I' % dimp[j] + dimp[j - 1] * start[j]);
        } else if start[j] != 0 {
          ptr' := ptr' + dimp[j - 1] * start[j];
          I' := I' + dimp[j - 1] * start[j];
        }
      } else {
        cnt' := cnt'[j := upward];
        I' := I' + inc[j];
        ptr' := ptr' + inc[j];
        return;
      }
      j := j + 1;
    }
  }

  /** Where a column begins, before the skip to its first row. */
  function Origin(start: seq<int>, stride: seq<int>, c: seq<int>): (r: seq<int>)
    requires 1 <= |start| == |stride| == |c|
    ensures |r| == |c|
  {
    Picked(start, stride, c)[0 := 0]
  }

  /** The counters hold the subscripts `c` of a column in the result. */
  ghost predicate Counted(edge: seq<nat>, cnt: seq<int>, c: seq<int>) {
    && 1 <= |edge| == |c| <= |cnt|
    && InRange(edge, c) && c[0] == 0
    && (forall k | 1 <= k < |c| :: cnt[k] == c[k])
  }

  /** Between dimensions of the rank loop: the digits below `j` are back at zero and one more step of
      dimension `j` is due in the result. */
  ghost predicate Counting(edge: seq<nat>, cnt: seq<int>, c: seq<int>, j: nat, target: int) {
    && 1 <= j <= |edge| && Counted(edge, cnt, c)
    && (forall k | 0 <= k < j :: c[k] == 0)
    && Linear(edge, c) + Prod(edge[..j]) == target
  }

  /** The same, with one more step due in the array as well. */
  ghost predicate Due(dims: seq<nat>, start: seq<int>, stride: seq<int>, edge: seq<nat>, cnt: seq<int>, I: int, c: seq<int>, j: nat, target: int) {
    && |dims| == |start| == |stride| == |edge|
    && Counting(edge, cnt, c, j, target)
    && (j < |dims| ==> I == Linear(dims, Origin(start, stride, c)) + Prod(dims[..j]))
  }

  /** What dims above `m` add to the index is a multiple of the elements below. */
  lemma {:induction false} PrefixDivides(dims: seq<nat>, m: nat) returns (r: nat)
    requires m <= |dims|
    ensures Prod(dims) == r * Prod(dims[..m])
  {
    if m == |dims| {
      assert dims[..m] == dims;
      r := 1;
    } else {
      var n := |dims| - 1;
      r := PrefixDivides(dims[..n], m);
      assert dims[..n][..m] == dims[..m];
      Rotate(r, Prod(dims[..m]), dims[n]);
      NonNegative(r, dims[n]);
      r := r * dims[n];
    }
  }

  lemma Rotate(r: int, p: int, d: int)
    ensures (r * p) * d == (r * d) * p
  {
  }

  lemma {:induction false} PrefixRemains(dims: seq<nat>, s: seq<int>, m: nat) returns (q: int)
    requires m <= |dims| == |s|
    ensures Linear(dims, s) == Linear(dims[..m], s[..m]) + q * Prod(dims[..m])
  {
    if m == |dims| {
      assert dims[..m] == dims && s[..m] == s;
      q := 0;
    } else {
      var n := |dims| - 1;
      q := PrefixRemains(dims[..n], s[..n], m);
      assert dims[..n][..m] == dims[..m] && s[..n][..m] == s[..m];
      var r := PrefixDivides(dims[..n], m);
      Combine(q, s[n], r, Prod(dims[..m]));
      q := q + s[n] * r;
    }
  }

  lemma Combine(q: int, s: int, r: int, p: int)
    ensures q * p + s * (r * p) == (q + s * r) * p
  {
  }

  lemma RoundUp(I: int, d: int, p: nat, q: int, size: nat)
    requires 1 <= d <= size && 0 < p && I == d * p + q * (p * size)
    ensures 0 < p * size && UpTo(I, p * size) == (q + 1) * (p * size)
  {
    var b := p * size;
    PositiveTimes(p, size);
    NonNegative(d, p);
    NonNegative(size - d, p);
    var r := d * p;
    assert 0 < r <= b by { PositiveTimes(d, p); }
    if r == b {
      OneMore(q, b);
      ModOf(I, b, q + 1, 0);
    } else {
      OneMore(q, b);
      ModOf(I, b, q, r);
    }
  }

  lemma OneMore(q: int, b: int)
    ensures (q + 1) * b == q * b + b
  {
  }

  lemma ModOf(I: int, b: int, q: int, r: int)
    requires 0 < b && 0 <= r < b && I == q * b + r
    ensures I % b == r
  {
    var q', r' := I / b, I % b;
    Quotient(I, b);
    SameDigit(b, r, q, r', q');
  }

  lemma Quotient(I: int, b: int)
    requires 0 < b
    ensures I == (I / b) * b + I % b
  {
  }

  lemma CarryCount(edge: seq<nat>, cnt: seq<int>, c: seq<int>, j: nat, target: int)
    requires j < |edge| && Counting(edge, cnt, c, j, target) && c[j] + 1 == edge[j]
    ensures Counting(edge, cnt[j := 0], c[j := 0], j + 1, target)
  {
    hide Linear, Prod;
    LinearUpdate(edge, c, j, 0);
    ProdStep(edge, j);
    LastRow(edge[j], Prod(edge[..j]));
  }

  lemma MoveCount(edge: seq<nat>, cnt: seq<int>, c: seq<int>, j: nat, target: int)
    requires j < |edge| && Counting(edge, cnt, c, j, target) && c[j] + 1 < edge[j]
    ensures Counted(edge, cnt[j := cnt[j] + 1], c[j := c[j] + 1])
    ensures Linear(edge, c[j := c[j] + 1]) == target
  {
    hide Linear, Prod;
    LinearUpdate(edge, c, j, c[j] + 1);
  }

  lemma LowZero(dims: seq<nat>, s: seq<int>, j: nat)
    requires j < |dims| == |s| && forall k | 0 <= k < j :: s[k] == 0
    ensures Linear(dims[..j + 1], s[..j + 1]) == s[j] * Prod(dims[..j])
  {
    LinearZero(dims[..j], s[..j]);
    LinearStep(dims, s, j);
  }

  /** Rounding up to the next block of the right size, with nothing dropped, is a step of the next
      dimension. */
  lemma CarryDue(dims: seq<nat>, start: seq<int>, stride: seq<int>, edge: seq<nat>, dimp: seq<nat>, cnt: seq<int>, I: int, c: seq<int>, j: nat, target: int)
    requires InBounds(dims, start, stride, edge)
    requires j < |dims| - 1 && Due(dims, start, stride, edge, cnt, I, c, j, target) && c[j] + 1 == edge[j]
    requires |dimp| == |dims| && 0 < dimp[j] == Prod(dims[..j + 1]) && dimp[j - 1] == Prod(dims[..j])
    requires forall k | 1 <= k < j :: start[k] == 0
    ensures Due(dims, start, stride, edge, cnt[j := 0], UpTo(I, dimp[j]) + dimp[j - 1] * start[j], c[j := 0], j + 1, target)
  {
    hide Linear, Prod, UpTo;
    var s := Origin(start, stride, c);
    var p, b := Prod(dims[..j]), Prod(dims[..j + 1]);
    assert Origin(start, stride, c[j := 0]) == s[j := start[j]];
    LowZero(dims, s, j);
    var q := PrefixRemains(dims, s, j + 1);
    PickedInRange(dims, start, stride, edge, c);
    ProdStep(dims, j);
    ToTheBlock(I, s[j], start[j], p, q, dims[j], Linear(dims, s), dimp[j]);
    LinearUpdate(dims, s, j, start[j]);
    CarryCount(edge, cnt, c, j, target);
  }

  lemma LastRow(e: int, p: int)
    ensures (0 - (e - 1)) * p + p * e == p
  {
  }

  lemma ToTheBlock(I: int, x: nat, first: int, p: nat, q: int, size: nat, at: int, b: nat)
    requires x < size && 0 < b == p * size && at == x * p + q * b && I == at + p
    ensures UpTo(I, b) + p * first == at + (first - x) * p + b
  {
    hide UpTo;
    OneMore(x, p);
    PositiveFactors(p, size);
    RoundUp(I, x + 1, p, q, size);
    OneMore(q, b);
    Distribute(first, x, p);
  }

  lemma MoveDue(dims: seq<nat>, start: seq<int>, stride: seq<int>, edge: seq<nat>, inc: seq<int>, cnt: seq<int>, I: int, c: seq<int>, j: nat, target: int)
    requires j < |dims| == |stride| && |dims| <= |inc| && inc[j] == (stride[j] - 1) * Prod(dims[..j])
    requires Due(dims, start, stride, edge, cnt, I, c, j, target) && c[j] + 1 < edge[j]
    ensures Ready(dims, start, stride, edge, cnt[j := cnt[j] + 1], I + inc[j], c[j := c[j] + 1])
    ensures Linear(edge, c[j := c[j] + 1]) == target
  {
    hide Linear, Prod;
    var s := Origin(start, stride, c);
    NextStride(stride[j], c[j]);
    assert Origin(start, stride, c[j := c[j] + 1]) == s[j := s[j] + stride[j]];
    LinearUpdate(dims, s, j, s[j] + stride[j]);
    OneMore(stride[j] - 1, Prod(dims[..j]));
    MoveCount(edge, cnt, c, j, target);
  }

  lemma LastCount(edge: seq<nat>, cnt: seq<int>, c: seq<int>, j: nat, target: int)
    requires j == |edge| - 1 && Counting(edge, cnt, c, j, target) && c[j] + 1 == edge[j]
    ensures target == Prod(edge)
  {
    hide Linear, Prod;
    LowZero(edge, c, j);
    assert edge[..j + 1] == edge && c[..j + 1] == c;
    ProdStep(edge, j);
    LastRow(edge[j], Prod(edge[..j]));
  }

  /** At the beginning of a column whose first element has subscripts `c` in the result. */
  ghost predicate Ready(dims: seq<nat>, start: seq<int>, stride: seq<int>, edge: seq<nat>, cnt: seq<int>, I: int, c: seq<int>) {
    && |dims| == |start| == |stride| == |edge|
    && Counted(edge, cnt, c)
    && I == Linear(dims, Origin(start, stride, c))
  }

  /** The counters of the rank loop do not depend on the index. */
  lemma {:induction false} CountersAdvance(dims: seq<nat>, start: seq<int>, stride: seq<int>, edge: seq<nat>, cnt: seq<int>, I: int, c: seq<int>, j: nat, target: int)
      returns (c': seq<int>)
    requires Nonempty(dims, start, stride, edge)
    requires Counting(edge, cnt, c, j, target) && target < Prod(edge)
    ensures var (cnt', I') := RankLoop(|dims|, start, edge, Blocks(dims), Steps(dims, stride), cnt, I, j);
            Counted(edge, cnt', c') && Linear(edge, c') == target
    decreases |dims| - j
  {
    hide Linear, Prod, UpTo, Block;
    var dimp := Blocks(dims);
    if j == |dims| {
      AllZero(edge, c, target);
      assert false;
    } else {
      AtEdge(cnt[j], edge[j]);
      if c[j] + 1 < edge[j] {
        MoveCount(edge, cnt, c, j, target);
        c' := c[j := c[j] + 1];
      } else if j < |dims| - 1 {
        CarryCount(edge, cnt, c, j, target);
        c' := CountersAdvance(dims, start, stride, edge, cnt[j := 0], UpTo(I, dimp[j]) + dimp[j - 1] * start[j], c[j := 0], j + 1, target);
      } else {
        LastCount(edge, cnt, c, j, target);
        assert false;
      }
    }
  }

  /** The rank loop moves on to the next column of the request, if there is one. */
  lemma {:induction false} RankLoopAdvances(dims: seq<nat>, start: seq<int>, stride: seq<int>, edge: seq<nat>, cnt: seq<int>, I: int, c: seq<int>, j: nat, target: int)
      returns (c': seq<int>)
    requires InBounds(dims, start, stride, edge) && Straight(dims, start) && Nonempty(dims, start, stride, edge)
    requires Due(dims, start, stride, edge, cnt, I, c, j, target) && target < Prod(edge)
    ensures var (cnt', I') := RankLoop(|dims|, start, edge, Blocks(dims), Steps(dims, stride), cnt, I, j);
            Ready(dims, start, stride, edge, cnt', I', c') && Linear(edge, c') == target
    decreases |dims| - j
  {
    hide Linear, Prod, UpTo, Straight, Origin, Block;
    var dimp, inc := Blocks(dims), Steps(dims, stride);
    if j == |dims| {
      AllZero(edge, c, target);
      assert false;
    } else {
      AtEdge(cnt[j], edge[j]);
      if c[j] + 1 < edge[j] {
        MoveDue(dims, start, stride, edge, inc, cnt, I, c, j, target);
        c' := c[j := c[j] + 1];
      } else if j < |dims| - 1 {
        StraightBlocks(dims, start, j);
        CarryDue(dims, start, stride, edge, dimp, cnt, I, c, j, target);
        c' := RankLoopAdvances(dims, start, stride, edge, cnt[j := 0], UpTo(I, dimp[j]) + dimp[j - 1] * start[j], c[j := 0], j + 1, target);
      } else {
        LastCount(edge, cnt, c, j, target);
        assert false;
      }
    }
  }

  lemma StraightBlocks(dims: seq<nat>, start: seq<int>, j: nat)
    requires |dims| == |start| && Straight(dims, start) && 1 <= j < |dims| - 1
    ensures Blocks(dims)[j] == Prod(dims[..j + 1]) && Blocks(dims)[j - 1] == Prod(dims[..j])
    ensures forall k | 1 <= k < j :: start[k] == 0
  {
    hide Prod, Block;
    BlockIs(dims, start, j);
    BlockIs(dims, start, j - 1);
  }

  lemma AllZero(edge: seq<nat>, c: seq<int>, target: int)
    requires |edge| == |c| && (forall k | 0 <= k < |c| :: c[k] == 0)
    requires Linear(edge, c) + Prod(edge[..|edge|]) == target
    ensures target == Prod(edge)
  {
    LinearZero(edge, c);
    assert edge[..|edge|] == edge;
  }

  lemma AtEdge(x: int, e: nat)
    requires 0 <= x < e
    ensures (x + 1) % e == 0 <==> x + 1 == e
  {
  }

  // ----- The walk -----

  /** Something is asked for, of an array that has elements. */
  predicate Nonempty(dims: seq<nat>, start: seq<int>, stride: seq<int>, edge: seq<nat>) {
    && 1 <= |dims| == |start| == |stride| == |edge|
    && forall k | 0 <= k < |dims| :: 0 < dims[k] && 0 < edge[k]
  }

  /** The counters and the index at the beginning of column `m`. */
  function Walk(dims: seq<nat>, start: seq<int>, stride: seq<int>, edge: seq<nat>, m: nat): (r: (seq<int>, int))
    requires Nonempty(dims, start, stride, edge)
    ensures |r.0| == |dims|
  {
    if m == 0 then (seq(|dims|, _ => 0), Offset(dims, start, |dims|))
    else
      var (cnt, I) := Walk(dims, start, stride, edge, m - 1);
      RankLoop(|dims|, start, edge, Blocks(dims), Steps(dims, stride), cnt, I + dims[0], 1)
  }

  /** The index in the array from which element `p` of the result is taken. */
  function IndexRead(dims: seq<nat>, start: seq<int>, stride: seq<int>, edge: seq<nat>, p: nat): int
    requires Nonempty(dims, start, stride, edge)
  {
    Walk(dims, start, stride, edge, p / edge[0]).1 + start[0] + p % edge[0] * stride[0]
  }

  function Indices(dims: seq<nat>, start: seq<int>, stride: seq<int>, edge: seq<nat>): seq<int>
    requires Nonempty(dims, start, stride, edge)
  {
    seq(Prod(edge), p requires 0 <= p => IndexRead(dims, start, stride, edge, p))
  }

  /** One column in memory. */
  method GetColumn<T>(data: seq<T>, ptr: int, I: int, dim: nat, start: int, stride: int, edge: nat)
      returns (column: seq<T>, ptr': int, I': int)
    requires forall k | 0 <= k < edge :: 0 <= ptr + start + k * stride < |data|
    ensures |column| == edge && forall k | 0 <= k < edge :: column[k] == data[ptr + start + k * stride]
    ensures ptr' == ptr + dim && I' == I + dim
  {
    ptr', I', column := ptr, I, [];
    if start != 0 {
      ptr' := ptr' + start;
      I' := I' + start;
    }
    if stride == 1 {
      for k := 0 to edge
        invariant |column| == k && forall i | 0 <= i < k :: column[i] == data[ptr + start + i * stride]
      {
        assert ptr' + k == ptr + start + k * stride;
        column := column + [data[ptr' + k]];
      }
      I' := I' + dim - start;
      ptr' := ptr' + dim - start;
    } else {
      for j := 0 to edge
        invariant |column| == j && ptr' == ptr + start + j * stride && I' == I + start + j * stride
        invariant forall k | 0 <= k < j :: column[k] == data[ptr + start + k * stride]
      {
        column := column + [data[ptr']];
        OneMore(j, stride);
        ptr' := ptr' + stride;
        I' := I' + stride;
      }
      I' := I' + (dim - edge * stride - start);
      ptr' := ptr' + (dim - edge * stride - start);
    }
  }

  /** The walk over data in memory, by a pointer into `data`. */
  method GetDataSlabN<T>(data: seq<T>, dims: seq<nat>, start: seq<int>, stride: seq<int>, edge: seq<nat>)
      returns (out: seq<T>)
    requires 1 <= |dims| == |start| == |stride| == |edge| <= 10
    requires 0 < Prod(edge) ==> InBounds(dims, start, stride, edge)
    requires Nonempty(dims, start, stride, edge) ==>
      forall i | 0 <= i < Prod(edge) :: 0 <= Indices(dims, start, stride, edge)[i] < |data|
    ensures |out| == Prod(edge)
    ensures Nonempty(dims, start, stride, edge) ==>
      forall i | 0 <= i < Prod(edge) :: out[i] == data[Indices(dims, start, stride, edge)[i]]
  {
    hide Linear, Prod, Block, Offset, RankLoop, IndexRead, InBounds;
    var inc, dimp, N, I := Setup(dims, start, stride, edge);
    if N == 0 {
      NoEdge(dims, start, stride, edge);
      return [];
    }
    Asked(dims, start, stride, edge);
    ProdFront(edge);
    ghost var at := Indices(dims, start, stride, edge);
    var cnt: seq<int> := seq(|dims|, _ => 0);
    var ptr := I;
    out := [];
    var i := 0;
    ghost var m := 0;
    while i < N
      invariant 0 <= i == |out| == m * edge[0] && i <= N
      invariant (cnt, I) == Walk(dims, start, stride, edge, m) && ptr == I
      invariant forall p | 0 <= p < i :: out[p] == data[at[p]]
      decreases N - i
    {
      WholeColumn(m, edge[0], Prod(edge[1..]));
      forall k: nat | k < edge[0]
        ensures at[i + k] == ptr + start[0] + k * stride[0]
        ensures 0 <= ptr + start[0] + k * stride[0] < |data|
      {
        IndexOf(dims, start, stride, edge, m, k);
        assert at[i + k] == IndexRead(dims, start, stride, edge, i + k);
      }
      var column;
      column, ptr, I := GetColumn(data, ptr, I, dims[0], start[0], stride[0], edge[0]);
      forall p | 0 <= p < i + edge[0]
        ensures (out + column)[p] == data[at[p]]
      {
        if p >= i {
          assert (out + column)[p] == column[p - i];
          assert at[i + (p - i)] == at[p];
        }
      }
      out := out + column;
      cnt, I, ptr := NextColumn(|dims|, start, edge, dimp, inc, cnt, I, ptr);
      i := i + edge[0];
      m := m + 1;
    }
  }

  lemma NoEdge(dims: seq<nat>, start: seq<int>, stride: seq<int>, edge: seq<nat>)
    requires Prod(edge) == 0
    ensures !Nonempty(dims, start, stride, edge)
  {
    if Nonempty(dims, start, stride, edge) {
      PositiveProd(edge);
      assert false;
    }
  }

  lemma Asked(dims: seq<nat>, start: seq<int>, stride: seq<int>, edge: seq<nat>)
    requires 1 <= |dims| && InBounds(dims, start, stride, edge) && 0 < Prod(edge)
    ensures Nonempty(dims, start, stride, edge)
  {
    PositiveDims(edge);
  }

  lemma WholeColumn(m: nat, e: nat, columns: nat)
    requires 0 < e && m * e < e * columns
    ensures m < columns && (m + 1) * e <= e * columns && (m + 1) * e == m * e + e
  {
    if m < columns {
      StepApart(e, m, columns);
    } else {
      Monotone(e, columns, m);
    }
  }

  /** Which column and which row an element is. */
  lemma ColumnAndRow(m: nat, e: nat, k: nat)
    requires k < e
    ensures 0 <= m * e && (m * e + k) / e == m && (m * e + k) % e == k
  {
    NonNegative(m, e);
    var p := m * e + k;
    ModOf(p, e, m, k);
    Quotient(p, e);
    SameDigit(e, k, p / e, k, m);
  }

  lemma IndexOf(dims: seq<nat>, start: seq<int>, stride: seq<int>, edge: seq<nat>, m: nat, k: nat)
    requires Nonempty(dims, start, stride, edge) && k < edge[0]
    ensures 0 <= m * edge[0]
    ensures IndexRead(dims, start, stride, edge, m * edge[0] + k)
            == Walk(dims, start, stride, edge, m).1 + start[0] + k * stride[0]
  {
    hide Walk;
    ColumnAndRow(m, edge[0], k);
  }

  // ----- What the request means -----

  function DivideBy(p: nat, b: nat): (r: (nat, nat))
    requires 0 < b
    ensures p == r.0 * b + r.1 && r.1 < b
  {
    Quotient(p, b);
    (p / b, p % b)
  }

  /** The subscripts of an index. */
  function Digits(dims: seq<nat>, p: nat): (c: seq<int>)
    requires forall k | 0 <= k < |dims| :: 0 < dims[k]
    ensures |c| == |dims|
  {
    if dims == [] then [] else
      var n := |dims| - 1;
      PositiveProd(dims[..n]);
      var (q, r) := DivideBy(p, Prod(dims[..n]));
      Digits(dims[..n], r) + [q]
  }

  lemma {:induction false} DigitsAre(dims: seq<nat>, p: nat)
    requires (forall k | 0 <= k < |dims| :: 0 < dims[k]) && p < Prod(dims)
    ensures InRange(dims, Digits(dims, p)) && Linear(dims, Digits(dims, p)) == p
  {
    hide DivideBy;
    if dims != [] {
      var n := |dims| - 1;
      PositiveProd(dims[..n]);
      var (q, r) := DivideBy(p, Prod(dims[..n]));
      DigitBelow(p, q, r, Prod(dims[..n]), dims[n]);
      DigitsAre(dims[..n], r);
      assert Digits(dims, p)[..n] == Digits(dims[..n], r);
    }
  }

  lemma DigitBelow(p: nat, q: nat, r: nat, b: nat, d: nat)
    requires p == q * b + r && p < b * d
    ensures q < d
  {
    if q >= d {
      Monotone(b, d, q);
    }
  }

  /** The subscripts in the result at which column `m` begins. */
  function Column(edge: seq<nat>, m: nat): (c: seq<int>)
    requires 1 <= |edge| && forall k | 0 <= k < |edge| :: 0 < edge[k]
    ensures |c| == |edge|
  {
    NonNegative(m, edge[0]);
    Digits(edge, m * edge[0])
  }

  lemma ColumnIs(edge: seq<nat>, m: nat)
    requires 1 <= |edge| && (forall k | 0 <= k < |edge| :: 0 < edge[k]) && m * edge[0] < Prod(edge)
    ensures Counted(edge, Column(edge, m), Column(edge, m)) && Linear(edge, Column(edge, m)) == m * edge[0]
  {
    hide Linear, Prod, Digits;
    NonNegative(m, edge[0]);
    DigitsAre(edge, m * edge[0]);
    var c := Column(edge, m);
    var q := PrefixRemains(edge, c, 1);
    FirstTerm(edge, c);
    OneColumn(edge);
    SameDigit(edge[0], c[0], q, 0, m);
  }

  lemma ColumnUnique(edge: seq<nat>, m: nat, c: seq<int>)
    requires 1 <= |edge| && (forall k | 0 <= k < |edge| :: 0 < edge[k])
    requires InRange(edge, c) && Linear(edge, c) == m * edge[0]
    ensures m * edge[0] < Prod(edge) && c == Column(edge, m)
  {
    hide Linear, Prod, Digits, Column;
    LinearBound(edge, c);
    ColumnIs(edge, m);
    LinearInjective(edge, c, Column(edge, m));
  }

  /** The number of the column that begins at `c`. */
  lemma ColumnOf(edge: seq<nat>, c: seq<int>) returns (m: nat)
    requires 1 <= |edge| && InRange(edge, c) && c[0] == 0
    ensures Linear(edge, c) == m * edge[0] < Prod(edge)
    ensures c == Column(edge, m)
  {
    hide Linear, Prod, Column;
    var q := PrefixRemains(edge, c, 1);
    FirstTerm(edge, c);
    OneColumn(edge);
    LinearBound(edge, c);
    NotNegative(q, edge[0]);
    m := q;
    ColumnUnique(edge, m, c);
  }

  lemma NotNegative(q: int, e: nat)
    requires 0 < e && 0 <= q * e
    ensures 0 <= q
  {
  }

  /** The index at which column `m` should begin, before the skip to its first row. */
  function Begin(dims: seq<nat>, start: seq<int>, stride: seq<int>, edge: seq<nat>, m: nat): int
    requires Nonempty(dims, start, stride, edge)
  {
    Linear(dims, Origin(start, stride, Column(edge, m)))
  }

  lemma BeginFirst(dims: seq<nat>, start: seq<int>, stride: seq<int>, edge: seq<nat>)
    requires Nonempty(dims, start, stride, edge)
    ensures 0 < Prod(edge)
    ensures Begin(dims, start, stride, edge, 0) == Linear(dims, start[0 := 0])
  {
    hide Linear, Prod, Column;
    var c: seq<int> := seq(|dims|, _ => 0);
    PositiveProd(edge);
    LinearZero(edge, c);
    ColumnUnique(edge, 0, c);
    assert Origin(start, stride, c) == start[0 := 0];
  }

  /** The rows of the column that begins at `c`, in the array and in the result. */
  lemma ColumnRow(dims: seq<nat>, start: seq<int>, stride: seq<int>, edge: seq<nat>, c: seq<int>, j: nat)
    requires InBounds(dims, start, stride, edge) && 1 <= |dims|
    requires InRange(edge, c) && c[0] == 0 && j < edge[0]
    ensures InRange(edge, c[0 := j]) && Linear(edge, c[0 := j]) == Linear(edge, c) + j < Prod(edge)
    ensures var at := Linear(dims, Origin(start, stride, c)) + start[0] + j * stride[0];
            0 <= at < Prod(dims) && Linear(dims, Picked(start, stride, c[0 := j])) == at
  {
    hide Linear, Prod;
    var s := Picked(start, stride, c);
    ColumnElement(dims, start, stride, edge, c, s, j);
    assert s[..|dims|] == s;
    LinearUpdate(dims, s, 0, 0);
    assert dims[..0] == [];
    NoElements();
    assert s[0] == start[0] by { FromStart(s[0], start[0], stride[0], 0); }
  }

  lemma NoElements()
    ensures Prod([]) == 1
  {
  }

  /** What is at `base` and behind is taken as the array; element `c` of the result comes from the
      element that the request means. */
  ghost predicate RightAt(at: seq<int>, base: int, dims: seq<nat>, start: seq<int>, stride: seq<int>, edge: seq<nat>, c: seq<int>)
    requires |dims| == |start| == |stride| == |edge| == |c|
  {
    var p := Linear(edge, c);
    0 <= p < |at| && at[p] == base + Linear(dims, Picked(start, stride, c))
  }

  /** Every element comes from where the element meant is stored. */
  ghost predicate Meant(at: seq<int>, base: int, dims: seq<nat>, start: seq<int>, stride: seq<int>, edge: seq<nat>)
    requires |dims| == |start| == |stride| == |edge|
  {
    forall c | InRange(edge, c) :: RightAt(at, base, dims, start, stride, edge, c)
  }

  /** Then all that is read lies in the array, and every element of the result is the one that the
      request means. */
  lemma RightData<T>(out: seq<T>, at: seq<int>, data: seq<T>, base: nat, dims: seq<nat>, start: seq<int>, stride: seq<int>, edge: seq<nat>)
    requires InBounds(dims, start, stride, edge) && Nonempty(dims, start, stride, edge)
    requires |at| == Prod(edge) && Meant(at, base, dims, start, stride, edge) && base + Prod(dims) <= |data|
    ensures forall i | 0 <= i < |at| :: base <= at[i] < base + Prod(dims)
    ensures |out| == |at| && (forall i | 0 <= i < |at| :: out[i] == data[at[i]])
      ==> forall c | InRange(edge, c) :: CellAt(out, data[base..base + Prod(dims)], dims, start, stride, edge, c)
  {
    hide Linear, Prod, Digits;
    forall i | 0 <= i < |at|
      ensures base <= at[i] < base + Prod(dims)
    {
      var c := Digits(edge, i);
      DigitsAre(edge, i);
      assert RightAt(at, base, dims, start, stride, edge, c);
      PickedInRange(dims, start, stride, edge, c);
      LinearBound(dims, Picked(start, stride, c));
    }
    forall c | InRange(edge, c)
      ensures RightAt(at, base, dims, start, stride, edge, c)
      ensures 0 <= Linear(dims, Picked(start, stride, c)) < Prod(dims)
    {
      PickedInRange(dims, start, stride, edge, c);
      LinearBound(dims, Picked(start, stride, c));
    }
  }

  /** When the elements are all different, the result is the one that the request means if and only if
      they come from where it means. */
  lemma DataRightIff<T>(out: seq<T>, at: seq<int>, data: seq<T>, base: nat, dims: seq<nat>, start: seq<int>, stride: seq<int>, edge: seq<nat>)
    requires InBounds(dims, start, stride, edge) && Nonempty(dims, start, stride, edge)
    requires base + Prod(dims) <= |data| && forall i, j | 0 <= i < j < |data| :: data[i] != data[j]
    requires |out| == |at| == Prod(edge)
    requires forall i | 0 <= i < |at| :: 0 <= at[i] < |data| && out[i] == data[at[i]]
    ensures (forall c | InRange(edge, c) :: CellAt(out, data[base..base + Prod(dims)], dims, start, stride, edge, c))
            <==> Meant(at, base, dims, start, stride, edge)
  {
    hide Linear, Prod;
    if Meant(at, base, dims, start, stride, edge) {
      RightData(out, at, data, base, dims, start, stride, edge);
    } else {
      var c :| InRange(edge, c) && !RightAt(at, base, dims, start, stride, edge, c);
      LinearBound(edge, c);
      assert !CellAt(out, data[base..base + Prod(dims)], dims, start, stride, edge, c);
    }
  }

  /** Row `k` of column `m` comes from where it should. */
  ghost predicate RowMeant(at: seq<int>, base: int, dims: seq<nat>, start: seq<int>, stride: seq<int>, edge: seq<nat>, m: nat, k: nat)
    requires Nonempty(dims, start, stride, edge)
  {
    var p := m * edge[0] + k;
    0 <= p < |at| && at[p] == base + Begin(dims, start, stride, edge, m) + start[0] + k * stride[0]
  }

  /** It is all a matter of rows and columns. */
  lemma MeantByRows(at: seq<int>, base: int, dims: seq<nat>, start: seq<int>, stride: seq<int>, edge: seq<nat>)
    requires InBounds(dims, start, stride, edge) && Nonempty(dims, start, stride, edge)
    ensures Meant(at, base, dims, start, stride, edge) <==>
      forall m: nat, k: nat | m * edge[0] < Prod(edge) && k < edge[0] :: RowMeant(at, base, dims, start, stride, edge, m, k)
  {
    hide Linear, Prod, Origin, Column, RightAt, InBounds;
    if Meant(at, base, dims, start, stride, edge) {
      forall m: nat, k: nat | m * edge[0] < Prod(edge) && k < edge[0]
        ensures RowMeant(at, base, dims, start, stride, edge, m, k)
      {
        ColumnIs(edge, m);
        RowRight(at, base, dims, start, stride, edge, m, k);
      }
    } else {
      var c :| InRange(edge, c) && !RightAt(at, base, dims, start, stride, edge, c);
      var first := c[0 := 0];
      var m := ColumnOf(edge, first);
      var k: int := c[0];
      RowRight(at, base, dims, start, stride, edge, m, k);
      assert first[0 := k] == c;
      assert !RowMeant(at, base, dims, start, stride, edge, m, k);
    }
  }

  lemma RowRight(at: seq<int>, base: int, dims: seq<nat>, start: seq<int>, stride: seq<int>, edge: seq<nat>, m: nat, k: nat)
    requires InBounds(dims, start, stride, edge) && Nonempty(dims, start, stride, edge)
    requires m * edge[0] < Prod(edge) && k < edge[0]
    ensures var c := Column(edge, m)[0 := k];
            InRange(edge, c) && (RightAt(at, base, dims, start, stride, edge, c) <==> RowMeant(at, base, dims, start, stride, edge, m, k))
  {
    hide Linear, Prod, Origin, Column;
    ColumnIs(edge, m);
    ColumnRow(dims, start, stride, edge, Column(edge, m), k);
  }

  /** The elements taken are the ones the request means. */
  ghost predicate AllRight(dims: seq<nat>, start: seq<int>, stride: seq<int>, edge: seq<nat>)
    requires Nonempty(dims, start, stride, edge)
  {
    Meant(Indices(dims, start, stride, edge), 0, dims, start, stride, edge)
  }

  /** Column `m` begins where it should. */
  ghost predicate BeginsRight(dims: seq<nat>, start: seq<int>, stride: seq<int>, edge: seq<nat>, m: nat)
    requires Nonempty(dims, start, stride, edge)
  {
    Walk(dims, start, stride, edge, m).1 == Begin(dims, start, stride, edge, m)
  }

  lemma RowTaken(dims: seq<nat>, start: seq<int>, stride: seq<int>, edge: seq<nat>, m: nat, k: nat)
    requires Nonempty(dims, start, stride, edge) && m * edge[0] < Prod(edge) && k < edge[0]
    ensures RowMeant(Indices(dims, start, stride, edge), 0, dims, start, stride, edge, m, k)
            <==> BeginsRight(dims, start, stride, edge, m)
  {
    hide Linear, Prod, Walk, Begin, IndexRead;
    ProdFront(edge);
    WholeColumn(m, edge[0], Prod(edge[1..]));
    IndexOf(dims, start, stride, edge, m, k);
    var at := Indices(dims, start, stride, edge);
    assert at[m * edge[0] + k] == IndexRead(dims, start, stride, edge, m * edge[0] + k);
  }

  /** The request is right if and only if all its columns begin where they should. */
  lemma RightByColumns(dims: seq<nat>, start: seq<int>, stride: seq<int>, edge: seq<nat>)
    requires InBounds(dims, start, stride, edge) && Nonempty(dims, start, stride, edge)
    ensures AllRight(dims, start, stride, edge)
            <==> forall m: nat | m * edge[0] < Prod(edge) :: BeginsRight(dims, start, stride, edge, m)
  {
    hide Linear, Prod, Walk, Begin, IndexRead, RowMeant, Meant, BeginsRight, Indices, InBounds;
    var at := Indices(dims, start, stride, edge);
    MeantByRows(at, 0, dims, start, stride, edge);
    forall m: nat, k: nat | m * edge[0] < Prod(edge) && k < edge[0]
      ensures RowMeant(at, 0, dims, start, stride, edge, m, k) <==> BeginsRight(dims, start, stride, edge, m)
    {
      RowTaken(dims, start, stride, edge, m, k);
    }
    if AllRight(dims, start, stride, edge) {
      forall m: nat | m * edge[0] < Prod(edge)
        ensures BeginsRight(dims, start, stride, edge, m)
      {
        assert RowMeant(at, 0, dims, start, stride, edge, m, 0);
      }
    }
  }

  /** After a column one step of the second dimension is due. */
  lemma ColumnDone(dims: seq<nat>, start: seq<int>, stride: seq<int>, edge: seq<nat>, cnt: seq<int>, I: int, c: seq<int>)
    requires Ready(dims, start, stride, edge, cnt, I, c)
    ensures Due(dims, start, stride, edge, cnt, I + dims[0], c, 1, Linear(edge, c) + edge[0])
  {
    hide Linear, Prod, Origin;
    OneColumn(dims);
    OneColumn(edge);
  }

  /** The counters are those of the column, whatever the index. */
  lemma {:induction false} CountersAt(dims: seq<nat>, start: seq<int>, stride: seq<int>, edge: seq<nat>, m: nat)
    requires Nonempty(dims, start, stride, edge) && m * edge[0] < Prod(edge)
    ensures Counted(edge, Walk(dims, start, stride, edge, m).0, Column(edge, m))
  {
    hide Linear, Prod, Column, RankLoop, Offset;
    if m == 0 {
      var c: seq<int> := seq(|dims|, _ => 0);
      LinearZero(edge, c);
      ColumnUnique(edge, 0, c);
    } else {
      OneMore(m - 1, edge[0]);
      CountersAt(dims, start, stride, edge, m - 1);
      ColumnIs(edge, m - 1);
      OneColumn(edge);
      var (cnt, I) := Walk(dims, start, stride, edge, m - 1);
      var c' := CountersAdvance(dims, start, stride, edge, cnt, I + dims[0], Column(edge, m - 1), 1, m * edge[0]);
      ColumnUnique(edge, m, c');
    }
  }

  lemma ReadyColumn(dims: seq<nat>, start: seq<int>, stride: seq<int>, edge: seq<nat>, m: nat)
    requires Nonempty(dims, start, stride, edge) && m * edge[0] < Prod(edge)
    requires BeginsRight(dims, start, stride, edge, m)
    ensures Linear(edge, Column(edge, m)) == m * edge[0]
    ensures Ready(dims, start, stride, edge, Walk(dims, start, stride, edge, m).0, Walk(dims, start, stride, edge, m).1, Column(edge, m))
  {
    hide Linear, Prod, Column, Walk;
    ColumnIs(edge, m);
    CountersAt(dims, start, stride, edge, m);
  }

  lemma StraightFirst(dims: seq<nat>, start: seq<int>)
    requires 1 <= |dims| == |start| && Straight(dims, start)
    ensures Offset(dims, start, |dims|) == Linear(dims, start[0 := 0])
  {
    hide Linear, Prod, Offset, Straight;
    OffsetIs(dims, start, |dims|);
    assert dims[..|dims|] == dims && start[0 := 0][..|dims|] == start[0 := 0];
  }

  lemma {:induction false} StraightColumn(dims: seq<nat>, start: seq<int>, stride: seq<int>, edge: seq<nat>, m: nat)
    requires InBounds(dims, start, stride, edge) && Nonempty(dims, start, stride, edge)
    requires Straight(dims, start) && m * edge[0] < Prod(edge)
    ensures BeginsRight(dims, start, stride, edge, m)
  {
    hide Linear, Prod, Column, Origin, RankLoop, Offset, Straight, Ready, InBounds;
    if m == 0 {
      StraightFirst(dims, start);
      BeginFirst(dims, start, stride, edge);
    } else {
      OneMore(m - 1, edge[0]);
      StraightColumn(dims, start, stride, edge, m - 1);
      ReadyColumn(dims, start, stride, edge, m - 1);
      var (cnt, I) := Walk(dims, start, stride, edge, m - 1);
      ColumnDone(dims, start, stride, edge, cnt, I, Column(edge, m - 1));
      var c := RankLoopAdvances(dims, start, stride, edge, cnt, I + dims[0], Column(edge, m - 1), 1, m * edge[0]);
      ReadyFields(dims, start, stride, edge, c);
      ColumnUnique(edge, m, c);
    }
  }

  lemma ReadyFields(dims: seq<nat>, start: seq<int>, stride: seq<int>, edge: seq<nat>, c: seq<int>)
    ensures forall cnt, I | Ready(dims, start, stride, edge, cnt, I, c) ::
      |c| == |edge| && InRange(edge, c) && I == Linear(dims, Origin(start, stride, c))
  {
  }

  /** Up to rank 3, and for straight requests of any rank, every element comes from its place. */
  lemma StraightIsRight(dims: seq<nat>, start: seq<int>, stride: seq<int>, edge: seq<nat>)
    requires InBounds(dims, start, stride, edge) && Nonempty(dims, start, stride, edge)
    requires Straight(dims, start)
    ensures AllRight(dims, start, stride, edge)
  {
    hide Prod, AllRight, BeginsRight, Straight, InBounds;
    forall m: nat | m * edge[0] < Prod(edge)
      ensures BeginsRight(dims, start, stride, edge, m)
    {
      StraightColumn(dims, start, stride, edge, m);
    }
    RightByColumns(dims, start, stride, edge);
  }
}
